// The bounded shortlist of the dense channel: a streaming scan over all usable
// signatures that keeps the nearest entries in a max-heap.
module DenseShortlist {
  import opened Basics
  import opened Domain

  datatype Entry = Entry(distance: nat, memoryId: MemoryId)

  predicate Less(a: Entry, b: Entry) {
    a.distance < b.distance || (a.distance == b.distance && a.memoryId < b.memoryId)
  }

  // A signature row; the distance is missing when the identifier or the
  // signature cannot be used.
  datatype SignatureRow = SignatureRow(memoryId: MemoryId, distance: Option<nat>)

  // A binary max-heap seen through its elements.
  class MaxHeap {
    var elements: multiset<Entry>

    constructor ()
      ensures elements == multiset{}
    {
      elements := multiset{};
    }

    method Push(entry: Entry)
      modifies this
      ensures elements == old(elements) + multiset{entry}
    {
      elements := elements + multiset{entry};
    }

    method Peek() returns (worst: Entry)
      requires |elements| > 0
      ensures worst in elements && forall e | e in elements :: !Less(worst, e)
    {
      worst :| worst in elements;
      var rest := elements - multiset{worst};
      while |rest| > 0
        invariant rest <= elements && worst in elements
        invariant forall e | e in elements && e !in rest :: !Less(worst, e)
        decreases |rest|
      {
        var next :| next in rest;
        if Less(worst, next) { worst := next; }
        rest := rest - multiset{next};
      }
    }

    method Pop()
      requires |elements| > 0
      modifies this
      ensures exists worst :: && worst in old(elements)
                              && (forall e | e in old(elements) :: !Less(worst, e))
                              && elements == old(elements) - multiset{worst}
    {
      var worst := Peek();
      elements := elements - multiset{worst};
    }
  }

  function Usable(rows: seq<SignatureRow>): multiset<Entry> {
    if rows == [] then multiset{}
    else
      var last := rows[|rows| - 1];
      Usable(rows[..|rows| - 1])
      + if last.distance.Some? then multiset{Entry(last.distance.value, last.memoryId)} else multiset{}
  }

  // `kept` is a choice of the `limit` smallest entries of `all`.
  ghost predicate Smallest(kept: multiset<Entry>, all: multiset<Entry>, limit: nat) {
    && kept <= all
    && |kept| == (if |all| < limit then |all| else limit)
    && forall k, r | k in kept && r in all - kept :: !Less(r, k)
  }

  // One pass over the rows; the engine's limit is 512.
  method Shortlist(rows: seq<SignatureRow>, limit: nat) returns (kept: multiset<Entry>)
    ensures Smallest(kept, Usable(rows), limit)
  {
    var heap := new MaxHeap();
    for i := 0 to |rows|
      invariant fresh(heap)
      invariant Smallest(heap.elements, Usable(rows[..i]), limit)
    {
      assert rows[..i + 1][..i] == rows[..i];
      if rows[i].distance.None? { continue; }
      var entry := Entry(rows[i].distance.value, rows[i].memoryId);
      ghost var all, before := Usable(rows[..i]), heap.elements;
      if |heap.elements| < limit {
        heap.Push(entry);
        RoomForOne(before, all, limit, entry);
      } else if limit > 0 {
        var worst := heap.Peek();
        if Less(entry, worst) {
          heap.Pop();
          heap.Push(entry);
          ReplaceWorst(before, all, limit, entry, heap.elements);
        } else {
          LeaveOut(before, all, limit, entry, worst);
        }
      }
    }
    assert rows[..|rows|] == rows;
    kept := heap.elements;
  }

  lemma RoomForOne(kept: multiset<Entry>, all: multiset<Entry>, limit: nat, entry: Entry)
    requires Smallest(kept, all, limit) && |kept| < limit
    ensures Smallest(kept + multiset{entry}, all + multiset{entry}, limit)
  {
    FullSubset(kept, all);
  }

  lemma FullSubset(kept: multiset<Entry>, all: multiset<Entry>)
    requires kept <= all && |kept| == |all|
    ensures kept == all
  {
    assert all == kept + (all - kept);
  }

  lemma LeaveOut(kept: multiset<Entry>, all: multiset<Entry>, limit: nat, entry: Entry, worst: Entry)
    requires Smallest(kept, all, limit) && |kept| == limit
    requires worst in kept && (forall e | e in kept :: !Less(worst, e)) && !Less(entry, worst)
    ensures Smallest(kept, all + multiset{entry}, limit)
  {
    forall k, r | k in kept && r in all + multiset{entry} - kept ensures !Less(r, k) {
      if r !in all - kept { assert r == entry; }
    }
  }

  lemma ReplaceWorst(
    kept: multiset<Entry>, all: multiset<Entry>, limit: nat, entry: Entry, after: multiset<Entry>)
    requires Smallest(kept, all, limit) && |kept| == limit
    requires exists worst :: && worst in kept && (forall e | e in kept :: !Less(worst, e))
                             && after == kept - multiset{worst} + multiset{entry} && Less(entry, worst)
    ensures Smallest(after, all + multiset{entry}, limit)
  {
    var worst :| && worst in kept && (forall e | e in kept :: !Less(worst, e))
                 && after == kept - multiset{worst} + multiset{entry} && Less(entry, worst);
    var out := all - kept;
    assert all + multiset{entry} - after == out + multiset{worst};
    forall k, r | k in after && r in out + multiset{worst} ensures !Less(r, k) {
      assert k == entry || k in kept;
      assert r == worst || r in out;
      assert r in out ==> !Less(r, worst);
    }
  }

  lemma Differ(a: multiset<Entry>, b: multiset<Entry>, all: multiset<Entry>) returns (x: Entry, y: Entry)
    requires |a| == |b| && a != b && a <= all && b <= all
    ensures a[x] > b[x] && x in all - b
    ensures b[y] > a[y] && y in all - a
  {
    var onlyA, onlyB := a - b, b - a;
    assert a == a * b + onlyA && b == a * b + onlyB;
    assert onlyA != multiset{} && onlyB != multiset{};
    x :| x in onlyA;
    y :| y in onlyB;
  }

  // The choice is unique, so the shortlist depends neither on the row order nor
  // on how the heap breaks ties.
  lemma SmallestUnique(a: multiset<Entry>, b: multiset<Entry>, all: multiset<Entry>, limit: nat)
    requires Smallest(a, all, limit) && Smallest(b, all, limit)
    ensures a == b
  {
    if a != b {
      var x, y := Differ(a, b, all);
      assert false;
    }
  }

  lemma {:induction false} UsableOfPermutation(rows: seq<SignatureRow>, entry: Entry)
    ensures Usable(rows)[entry] == multiset(rows)[SignatureRow(entry.memoryId, Some(entry.distance))]
  {
    if rows == [] {
    } else {
      var front := rows[..|rows| - 1];
      UsableOfPermutation(front, entry);
      assert rows == front + [rows[|rows| - 1]];
    }
  }

  // Whatever the order of the rows, the scan ends with the same entries.
  lemma OrderIndependent(
    rows: seq<SignatureRow>, other: seq<SignatureRow>, kept: multiset<Entry>, keptOther: multiset<Entry>, limit: nat)
    requires multiset(rows) == multiset(other)
    requires Smallest(kept, Usable(rows), limit) && Smallest(keptOther, Usable(other), limit)
    ensures kept == keptOther
  {
    forall entry ensures Usable(rows)[entry] == Usable(other)[entry] {
      UsableOfPermutation(rows, entry);
      UsableOfPermutation(other, entry);
    }
    assert Usable(rows) == Usable(other);
    SmallestUnique(kept, keptOther, Usable(rows), limit);
  }
}
