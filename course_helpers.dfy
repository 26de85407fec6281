/**
 * Id-addressed collection helpers (src/utils/courseHelpers.ts): lookup, update and
 * delete by `id` inside an ordered collection, and the two counting folds.
 * The TypeScript helpers are generic over `T extends { id: number }`; here the
 * `id` projection is passed as `key`.
 */
module CourseHelpers {
  import opened Wrappers
  import opened CourseTypes

  // ---------------------------------------------------------------------------
  // Lookup: `items.find(item => item.id === id)`

  function FindById<T>(items: seq<T>, id: int, key: T -> int): (r: Option<T>)
    ensures r.None? <==> forall i :: 0 <= i < |items| ==> key(items[i]) != id
    ensures r.Some? ==> exists i :: 0 <= i < |items| && items[i] == r.value && key(items[i]) == id
                                  && forall j :: 0 <= j < i ==> key(items[j]) != id
  {
    if items == [] then None
    else if key(items[0]) == id then Some(items[0])
    else
      var r := FindById(items[1..], id, key);
      assert r.Some? ==> exists i :: 1 <= i < |items| && items[i] == r.value && key(items[i]) == id
                                    && forall j :: 0 <= j < i ==> key(items[j]) != id by {
        if r.Some? {
          var i :| 0 <= i < |items[1..]| && items[1..][i] == r.value && key(items[1..][i]) == id
                   && forall j :: 0 <= j < i ==> key(items[1..][j]) != id;
          assert forall j :: 1 <= j < i + 1 ==> key(items[j]) == key(items[1..][j - 1]);
        }
      }
      r
  }

  function FindChapterById(course: CourseManifest, chapterId: int): (r: Option<Chapter>)
    ensures r.Some? ==> r.value in course.chapters && r.value.id == chapterId
    ensures r.None? <==> forall c :: c in course.chapters ==> c.id != chapterId
  {
    FindById(course.chapters, chapterId, ChapterId)
  }

  function FindUnitById(chapter: Chapter, unitId: int): (r: Option<Unit>)
    ensures r.Some? ==> r.value in chapter.units && r.value.id == unitId
    ensures r.None? <==> forall u :: u in chapter.units ==> u.id != unitId
  {
    FindById(chapter.units, unitId, UnitId)
  }

  function FindAttachmentById(unit: Unit, attachmentId: int): (r: Option<Attachment>)
    ensures r.Some? ==> r.value in unit.attachments && r.value.id == attachmentId
    ensures r.None? <==> forall a :: a in unit.attachments ==> a.id != attachmentId
  {
    FindById(unit.attachments, attachmentId, AttachmentId)
  }

  function FindFluidDefenseById(chapter: Chapter, defenseId: int): (r: Option<FluidDefense>)
    ensures r.Some? ==> r.value in chapter.fluidDefense && r.value.id == defenseId
    ensures r.None? <==> forall d :: d in chapter.fluidDefense ==> d.id != defenseId
  {
    FindById(chapter.fluidDefense, defenseId, FluidDefenseId)
  }

  // ---------------------------------------------------------------------------
  // Update: `items.map(item => item.id === id ? updater(item) : item)`

  function UpdateItem<T>(items: seq<T>, id: int, key: T -> int, updater: T -> T): (r: seq<T>)
    ensures |r| == |items|
    ensures forall i :: 0 <= i < |items| && key(items[i]) != id ==> r[i] == items[i]
    ensures forall i :: 0 <= i < |items| && key(items[i]) == id ==> r[i] == updater(items[i])
  {
    if items == [] then []
    else [if key(items[0]) == id then updater(items[0]) else items[0]]
         + UpdateItem(items[1..], id, key, updater)
  }

  /** With no element carrying `id`, the update is a no-op. */
  lemma UpdateItemAbsent<T>(items: seq<T>, id: int, key: T -> int, updater: T -> T)
    requires forall i :: 0 <= i < |items| ==> key(items[i]) != id
    ensures UpdateItem(items, id, key, updater) == items
  {
  }

  /** An updater that keeps the `id` keeps every position's `id`. */
  lemma UpdateItemKeepsKeys<T>(items: seq<T>, id: int, key: T -> int, updater: T -> T)
    requires forall x :: key(updater(x)) == key(x)
    ensures forall i :: 0 <= i < |items| ==> key(UpdateItem(items, id, key, updater)[i]) == key(items[i])
  {
  }

  // ---------------------------------------------------------------------------
  // Delete: `items.filter(item => item.id !== id)`

  /** How many elements carry `id`. */
  function CountMatching<T>(items: seq<T>, id: int, key: T -> int): (n: nat)
    ensures n <= |items|
    ensures n == 0 <==> forall i :: 0 <= i < |items| ==> key(items[i]) != id
  {
    if items == [] then 0
    else (if key(items[0]) == id then 1 else 0) + CountMatching(items[1..], id, key)
  }

  function DeleteItem<T>(items: seq<T>, id: int, key: T -> int): (r: seq<T>)
    ensures |r| == |items| - CountMatching(items, id, key)
  {
    if items == [] then []
    else if key(items[0]) == id then DeleteItem(items[1..], id, key)
    else [items[0]] + DeleteItem(items[1..], id, key)
  }

  /** After a delete no element carries `id`, and every element that did not is still there. */
  lemma {:induction false} DeleteItemMembers<T>(items: seq<T>, id: int, key: T -> int)
    ensures forall x :: x in DeleteItem(items, id, key) ==> x in items && key(x) != id
    ensures forall i :: 0 <= i < |items| && key(items[i]) != id ==> items[i] in DeleteItem(items, id, key)
  {
    if items != [] {
      DeleteItemMembers(items[1..], id, key);
      assert forall i :: 1 <= i < |items| ==> items[i] == items[1..][i - 1];
    }
  }

  /** The positions that survive a delete, in increasing order, numbered from `offset`. */
  ghost function KeptIndices<T>(items: seq<T>, id: int, key: T -> int, offset: nat): seq<nat>
  {
    if items == [] then []
    else (if key(items[0]) != id then [offset] else []) + KeptIndices(items[1..], id, key, offset + 1)
  }

  lemma {:induction false} KeptIndicesLength<T>(items: seq<T>, id: int, key: T -> int, offset: nat)
    ensures |KeptIndices(items, id, key, offset)| == |DeleteItem(items, id, key)|
  {
    if items != [] {
      KeptIndicesLength(items[1..], id, key, offset + 1);
    }
  }

  lemma {:induction false} KeptIndexAt<T>(items: seq<T>, id: int, key: T -> int, offset: nat, k: nat)
    requires k < |KeptIndices(items, id, key, offset)|
    ensures var ks := KeptIndices(items, id, key, offset);
            var r := DeleteItem(items, id, key);
            offset <= ks[k] < offset + |items| && k < |r| && r[k] == items[ks[k] - offset]
  {
    KeptIndicesLength(items, id, key, offset);
    var tail := KeptIndices(items[1..], id, key, offset + 1);
    var rest := DeleteItem(items[1..], id, key);
    if key(items[0]) != id {
      assert KeptIndices(items, id, key, offset) == [offset] + tail;
      assert DeleteItem(items, id, key) == [items[0]] + rest;
      if k > 0 {
        KeptIndexAt(items[1..], id, key, offset + 1, k - 1);
      }
    } else {
      assert KeptIndices(items, id, key, offset) == tail;
      assert DeleteItem(items, id, key) == rest;
      KeptIndexAt(items[1..], id, key, offset + 1, k);
    }
  }

  lemma {:induction false} KeptIndicesIncreasing<T>(items: seq<T>, id: int, key: T -> int, offset: nat)
    ensures forall k :: 0 <= k < |KeptIndices(items, id, key, offset)| ==> offset <= KeptIndices(items, id, key, offset)[k]
    ensures StrictlyIncreasing(KeptIndices(items, id, key, offset))
  {
    if items != [] {
      KeptIndicesIncreasing(items[1..], id, key, offset + 1);
      var tail := KeptIndices(items[1..], id, key, offset + 1);
      if key(items[0]) != id {
        var ks := [offset] + tail;
        assert KeptIndices(items, id, key, offset) == ks;
        assert forall k :: 1 <= k < |ks| ==> ks[k] == tail[k - 1];
      } else {
        assert KeptIndices(items, id, key, offset) == tail;
      }
    }
  }

  ghost predicate StrictlyIncreasing(ks: seq<nat>)
  {
    forall k, l :: 0 <= k < l < |ks| ==> ks[k] < ks[l]
  }

  lemma {:induction false} KeptIndicesMembers<T>(items: seq<T>, id: int, key: T -> int, offset: nat)
    ensures var ks := KeptIndices(items, id, key, offset);
            forall i :: 0 <= i < |items| ==> (key(items[i]) != id <==> offset + i in ks)
  {
    if items != [] {
      KeptIndicesMembers(items[1..], id, key, offset + 1);
      KeptIndicesIncreasing(items[1..], id, key, offset + 1);
      var tail := KeptIndices(items[1..], id, key, offset + 1);
      assert offset !in tail;
      forall i | 1 <= i < |items|
        ensures key(items[i]) != id <==> offset + i in tail
      {
        assert items[i] == items[1..][i - 1];
      }
    }
  }

  /**
   * Delete keeps exactly the elements whose `id` differs, in their original order:
   * the result is `items` read at the strictly increasing positions of the survivors.
   */
  lemma DeleteItemKeepsOrder<T>(items: seq<T>, id: int, key: T -> int)
    ensures var r := DeleteItem(items, id, key);
            var ks := KeptIndices(items, id, key, 0);
            && |ks| == |r|
            && (forall k :: 0 <= k < |ks| ==> ks[k] < |items| && r[k] == items[ks[k]])
            && StrictlyIncreasing(ks)
            && (forall i :: 0 <= i < |items| ==> (key(items[i]) != id <==> i in ks))
  {
    KeptIndicesLength(items, id, key, 0);
    var ks := KeptIndices(items, id, key, 0);
    forall k | 0 <= k < |ks| ensures ks[k] < |items| && DeleteItem(items, id, key)[k] == items[ks[k]] {
      KeptIndexAt(items, id, key, 0, k);
    }
    KeptIndicesIncreasing(items, id, key, 0);
    KeptIndicesMembers(items, id, key, 0);
  }

  /** Deleting an absent `id` is a no-op. */
  lemma {:induction false} DeleteItemAbsent<T>(items: seq<T>, id: int, key: T -> int)
    requires forall i :: 0 <= i < |items| ==> key(items[i]) != id
    ensures DeleteItem(items, id, key) == items
  {
    if items != [] {
      DeleteItemAbsent(items[1..], id, key);
    }
  }

  /** Deleting twice is deleting once. */
  lemma {:induction false} DeleteItemIdempotent<T>(items: seq<T>, id: int, key: T -> int)
    ensures DeleteItem(DeleteItem(items, id, key), id, key) == DeleteItem(items, id, key)
  {
    var r := DeleteItem(items, id, key);
    DeleteItemMembers(items, id, key);
    forall i | 0 <= i < |r| ensures key(r[i]) != id {
      assert r[i] in r;
    }
    DeleteItemAbsent(r, id, key);
  }

  /** Deleting from a concatenation deletes from each part. */
  lemma {:induction false} DeleteItemAppend<T>(a: seq<T>, b: seq<T>, id: int, key: T -> int)
    ensures DeleteItem(a + b, id, key) == DeleteItem(a, id, key) + DeleteItem(b, id, key)
  {
    if a == [] {
      assert a + b == b;
    } else {
      assert (a + b)[1..] == a[1..] + b;
      DeleteItemAppend(a[1..], b, id, key);
    }
  }

  /** Appending an element with a fresh `id` and then deleting that `id` restores the sequence. */
  lemma DeleteAfterAppend<T>(items: seq<T>, x: T, key: T -> int)
    requires forall i :: 0 <= i < |items| ==> key(items[i]) != key(x)
    ensures DeleteItem(items + [x], key(x), key) == items
  {
    DeleteItemAppend(items, [x], key(x), key);
    DeleteItemAbsent(items, key(x), key);
  }

  // ---------------------------------------------------------------------------
  // Counting: `chapters.reduce((sum, ch) => sum + size(ch), 0)`

  /** Reference sum of `size` over a sequence. */
  function SumOf<T>(items: seq<T>, size: T -> nat): nat
  {
    if items == [] then 0 else size(items[0]) + SumOf(items[1..], size)
  }

  /** The left fold `reduce` runs, with its running accumulator. */
  function ReduceSum<T>(items: seq<T>, size: T -> nat, acc: nat): (r: nat)
    ensures r == acc + SumOf(items, size)
  {
    if items == [] then acc else ReduceSum(items[1..], size, acc + size(items[0]))
  }

  lemma {:induction false} SumOfAppend<T>(a: seq<T>, b: seq<T>, size: T -> nat)
    ensures SumOf(a + b, size) == SumOf(a, size) + SumOf(b, size)
  {
    if a == [] {
      assert a + b == b;
    } else {
      assert (a + b)[1..] == a[1..] + b;
      SumOfAppend(a[1..], b, size);
    }
  }

  /** The elements a delete removes, in order. */
  ghost function Matching<T>(items: seq<T>, id: int, key: T -> int): seq<T>
  {
    if items == [] then []
    else (if key(items[0]) == id then [items[0]] else []) + Matching(items[1..], id, key)
  }

  /** A delete lowers any sum by exactly the removed elements' share. */
  lemma {:induction false} DeleteItemSum<T>(items: seq<T>, id: int, key: T -> int, size: T -> nat)
    ensures SumOf(DeleteItem(items, id, key), size) + SumOf(Matching(items, id, key), size) == SumOf(items, size)
  {
    if items != [] {
      var x := items[0];
      var rest := DeleteItem(items[1..], id, key);
      var gone := Matching(items[1..], id, key);
      DeleteItemSum(items[1..], id, key, size);
      assert SumOf(items, size) == size(x) + SumOf(items[1..], size);
      assert SumOf([x] + rest, size) == size(x) + SumOf(rest, size) by {
        assert ([x] + rest)[1..] == rest;
      }
      assert SumOf([x] + gone, size) == size(x) + SumOf(gone, size) by {
        assert ([x] + gone)[1..] == gone;
      }
      if key(x) == id {
        assert DeleteItem(items, id, key) == rest;
        assert Matching(items, id, key) == [x] + gone;
      } else {
        assert DeleteItem(items, id, key) == [x] + rest;
        assert Matching(items, id, key) == [] + gone;
        assert [] + gone == gone;
      }
    }
  }

  /** When exactly one position `k` carries `id`, a delete removes exactly that element. */
  lemma {:induction false} MatchingSingle<T>(items: seq<T>, id: int, key: T -> int, k: nat)
    requires k < |items| && key(items[k]) == id
    requires forall i :: 0 <= i < |items| && i != k ==> key(items[i]) != id
    ensures Matching(items, id, key) == [items[k]]
  {
    if k == 0 {
      assert forall i :: 0 <= i < |items[1..]| ==> key(items[1..][i]) == key(items[i + 1]);
      MatchingNone(items[1..], id, key);
    } else {
      assert forall i :: 0 <= i < |items[1..]| && i != k - 1 ==> key(items[1..][i]) == key(items[i + 1]);
      MatchingSingle(items[1..], id, key, k - 1);
    }
  }

  lemma {:induction false} MatchingNone<T>(items: seq<T>, id: int, key: T -> int)
    requires forall i :: 0 <= i < |items| ==> key(items[i]) != id
    ensures Matching(items, id, key) == []
  {
    if items != [] {
      MatchingNone(items[1..], id, key);
    }
  }

  function UnitCount(c: Chapter): nat { |c.units| }
  function AssessmentCount(c: Chapter): nat { |c.fluidDefense| }

  /** `countUnits`: the fold equals the sum of the chapters' unit counts. */
  function CountUnits(course: CourseManifest): (n: nat)
    ensures n == SumOf(course.chapters, UnitCount)
  {
    ReduceSum(course.chapters, UnitCount, 0)
  }

  /** `countAssessments`: the fold equals the sum of the chapters' assessment counts. */
  function CountAssessments(course: CourseManifest): (n: nat)
    ensures n == SumOf(course.chapters, AssessmentCount)
  {
    ReduceSum(course.chapters, AssessmentCount, 0)
  }
}
