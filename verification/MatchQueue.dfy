/** The priority queue of pending matches: an in-place binary heap over a fixed array. */
module MatchQueue {

  /** A pending match of the pattern with index `id`. */
  datatype QueueItem = QueueItem(from: nat, to: nat, id: nat)

  /** The queue order: by end offset, then start offset, then pattern. */
  predicate Before(a: QueueItem, b: QueueItem) {
    if a.to != b.to then a.to < b.to
    else if a.from != b.from then a.from < b.from
    else a.id < b.id
  }

  function Parent(i: nat): nat
    requires i > 0
  {
    (i - 1) / 2
  }

  /** Every item but the first is no earlier than its parent. */
  ghost predicate Heap(s: seq<QueueItem>) {
    forall i | 0 < i < |s| :: !Before(s[i], s[Parent(i)])
  }

  /** A heap but for the item at `pos`, which may be too early. */
  ghost predicate HeapButUp(s: seq<QueueItem>, pos: nat)
    requires pos < |s|
  {
    && (forall i | 0 < i < |s| && i != pos :: !Before(s[i], s[Parent(i)]))
    && (forall i | 0 < i < |s| && Parent(i) == pos && pos > 0 :: !Before(s[i], s[Parent(pos)]))
  }

  /** A heap but for the item at `pos`, which may be too late. */
  ghost predicate HeapButDown(s: seq<QueueItem>, pos: nat)
    requires pos < |s|
  {
    && (forall i | 0 < i < |s| && Parent(i) != pos :: !Before(s[i], s[Parent(i)]))
    && (forall i | 0 < i < |s| && Parent(i) == pos && pos > 0 :: !Before(s[i], s[Parent(pos)]))
  }

  function Swap(s: seq<QueueItem>, i: nat, j: nat): seq<QueueItem>
    requires i < |s| && j < |s|
  {
    s[i := s[j]][j := s[i]]
  }

  lemma Swapped(s: seq<QueueItem>, i: nat, j: nat)
    requires i < |s| && j < |s|
    ensures var t := Swap(s, i, j);
            |t| == |s| && t[j] == s[i] && t[i] == s[j] && forall k | 0 <= k < |s| && k != i && k != j :: t[k] == s[k]
  {
  }

  lemma SwapKeepsItems(s: seq<QueueItem>, i: nat, j: nat)
    requires i < |s| && j < |s|
    ensures multiset(Swap(s, i, j)) == multiset(s)
  {
  }

  /** Moving an item that is too early above its parent. */
  lemma SwapUp(s: seq<QueueItem>, pos: nat, parent: nat)
    requires 0 < pos < |s| && parent == Parent(pos) && HeapButUp(s, pos) && !Before(s[parent], s[pos])
    ensures HeapButUp(Swap(s, pos, parent), parent)
    ensures multiset(Swap(s, pos, parent)) == multiset(s)
  {
    SwapKeepsItems(s, pos, parent);
  }

  /** A new item in the last place. */
  lemma AppendItem(s: seq<QueueItem>, x: QueueItem)
    requires Heap(s)
    ensures HeapButUp(s + [x], |s|)
    ensures multiset(s + [x]) == multiset(s) + multiset{x}
  {
  }

  lemma UpDone(s: seq<QueueItem>, pos: nat)
    requires pos < |s| && HeapButUp(s, pos) && (pos == 0 || Before(s[Parent(pos)], s[pos]))
    ensures Heap(s)
  {
  }

  lemma SwapDown(s: seq<QueueItem>, pos: nat, child: nat)
    requires pos < |s| && 0 < child < |s| && Parent(child) == pos && HeapButDown(s, pos)
    requires Before(s[child], s[pos])
    requires forall i | 0 < i < |s| && Parent(i) == pos :: !Before(s[i], s[child])
    ensures HeapButDown(Swap(s, pos, child), child)
    ensures multiset(Swap(s, pos, child)) == multiset(s)
  {
    SwapKeepsItems(s, pos, child);
  }

  /** Which child of `pos` is the earlier. */
  lemma EarlierChild(s: seq<QueueItem>, pos: nat, child: nat)
    requires 2 * pos + 1 < |s|
    requires child == if 2 * pos + 2 < |s| && Before(s[2 * pos + 2], s[2 * pos + 1]) then 2 * pos + 2 else 2 * pos + 1
    ensures 0 < child < |s| && Parent(child) == pos
    ensures forall i | 0 < i < |s| && Parent(i) == pos :: !Before(s[i], s[child])
  {
  }

  /** One round of moving down: either the item moves below its earlier child, or it is in place. */
  lemma DownStep(s: seq<QueueItem>, pos: nat, child: nat)
    requires pos < |s| && HeapButDown(s, pos) && 2 * pos + 1 < |s|
    requires child == if 2 * pos + 2 < |s| && Before(s[2 * pos + 2], s[2 * pos + 1]) then 2 * pos + 2 else 2 * pos + 1
    ensures !Before(s[child], s[pos]) ==> Heap(s)
    ensures Before(s[child], s[pos]) ==>
              HeapButDown(Swap(s, pos, child), child) && multiset(Swap(s, pos, child)) == multiset(s)
  {
    EarlierChild(s, pos, child);
    if Before(s[child], s[pos]) {
      SwapDown(s, pos, child);
    }
  }

  lemma RemoveOnly(s: seq<QueueItem>, rest: seq<QueueItem>)
    requires |s| == 1 && rest == []
    ensures Heap(rest)
    ensures multiset(rest) == multiset(s) - multiset{s[0]}
  {
    assert s == [s[0]];
  }

  lemma DownLeaf(s: seq<QueueItem>, pos: nat)
    requires pos < |s| <= 2 * pos + 1 && HeapButDown(s, pos)
    ensures Heap(s)
  {
  }

  /** The first item of a heap is least. */
  lemma {:induction false} FirstIsLeast(s: seq<QueueItem>, i: nat)
    requires Heap(s) && i < |s|
    ensures !Before(s[i], s[0])
    decreases i
  {
    if i > 0 {
      FirstIsLeast(s, Parent(i));
    }
  }

  /** The last item takes the place of the first. */
  lemma RemoveFirst(s: seq<QueueItem>)
    requires |s| > 1 && Heap(s)
    ensures HeapButDown(s[..|s| - 1][0 := s[|s| - 1]], 0)
    ensures multiset(s[..|s| - 1][0 := s[|s| - 1]]) == multiset(s) - multiset{s[0]}
  {
    var last := |s| - 1;
    assert s == s[..last] + [s[last]];
    assert multiset(s) == multiset(s[..last]) + multiset{s[last]};
  }

  class MatchPq {
    const item: array<QueueItem>
    var size: nat

    ghost predicate Valid()
      reads this, item
    {
      size <= item.Length && Heap(item[..size])
    }

    ghost function Contents(): multiset<QueueItem>
      reads this, item
      requires size <= item.Length
    {
      multiset(item[..size])
    }

    lemma CountIsSize()
      requires Valid()
      ensures |Contents()| == size
    {
    }

    constructor (capacity: nat)
      ensures Valid() && fresh(item) && item.Length == capacity && Contents() == multiset{}
    {
      item := new QueueItem[capacity](_ => QueueItem(0, 0, 0));
      size := 0;
    }

    /** Empties the queue. */
    method Clear()
      modifies this
      ensures Valid() && size == 0 && Contents() == multiset{}
    {
      size := 0;
    }

    /** The earliest pending match: the first end, then the first start, then the first pattern. */
    method Top() returns (top: QueueItem)
      requires Valid() && size > 0
      ensures top in Contents() && top == item[0]
      ensures forall x | x in Contents() :: !Before(x, top)
      ensures forall x | x in Contents() ::
                && top.to <= x.to
                && (top.to == x.to ==> top.from <= x.from)
                && (top.to == x.to && top.from == x.from ==> top.id <= x.id)
    {
      top := item[0];
      forall x | x in Contents() ensures !Before(x, top) {
        var i :| 0 <= i < size && item[..size][i] == x;
        FirstIsLeast(item[..size], i);
      }
    }

    /** Moves a new item up from the first free slot. */
    method Insert(x: QueueItem)
      requires Valid() && size < item.Length
      modifies this, item
      ensures Valid() && size == old(size) + 1
      ensures Contents() == old(Contents()) + multiset{x}
    {
      hide Heap, HeapButUp, Before, Swap;
      ghost var s := item[..size] + [x];
      AppendItem(item[..size], x);
      var pos := size;
      while pos > 0
        invariant 0 <= pos <= size < item.Length && |s| == size + 1 && s[pos] == x
        invariant forall i | 0 <= i <= size && i != pos :: item[i] == s[i]
        invariant HeapButUp(s, pos)
        invariant multiset(s) == old(Contents()) + multiset{x}
      {
        var parent := (pos - 1) / 2;
        if Before(item[parent], x) {
          break;
        }
        SwapUp(s, pos, parent);
        Swapped(s, pos, parent);
        s := Swap(s, pos, parent);
        item[pos] := item[parent];
        pos := parent;
      }
      UpDone(s, pos);
      item[pos] := x;
      size := size + 1;
      assert item[..size] == s;
    }

    /** Removes the earliest item: the last one takes its place and is moved down. */
    method Pop()
      requires Valid() && size > 0
      modifies this, item
      ensures Valid() && size == old(size) - 1
      ensures Contents() == old(Contents()) - multiset{old(item[0])}
    {
      hide Heap, HeapButDown, Before;
      if size > 1 {
        MoveLastUp();
        Sift();
      } else {
        RemoveOnly(item[..size], item[..size - 1]);
        size := size - 1;
      }
    }

    /** Puts the last item in place of the first one. */
    method MoveLastUp()
      requires Valid() && size > 1
      modifies this, item
      ensures size == old(size) - 1 > 0 && HeapButDown(item[..size], 0)
      ensures Contents() == old(Contents()) - multiset{old(item[0])}
    {
      hide Heap, HeapButDown, Before;
      ghost var before := item[..size];
      RemoveFirst(before);
      size := size - 1;
      item[0] := item[size];
      assert item[..size] == before[..|before| - 1][0 := before[|before| - 1]];
    }

    method Sift()
      requires 0 < size < item.Length && HeapButDown(item[..size], 0)
      modifies item
      ensures Valid() && Contents() == old(Contents())
    {
      hide Heap, HeapButDown, Before, Swap;
      ghost var s := item[..size];
      var j, x := 0, item[0];
      while 2 * j + 1 < size
        invariant 0 <= j < size < item.Length && |s| == size && s[j] == x
        invariant forall i | 0 <= i < size && i != j :: item[i] == s[i]
        invariant HeapButDown(s, j)
        invariant multiset(s) == old(Contents())
        decreases size - j
      {
        var child := if 2 * j + 2 < size && Before(item[2 * j + 2], item[2 * j + 1]) then 2 * j + 2 else 2 * j + 1;
        DownStep(s, j, child);
        Swapped(s, j, child);
        if !Before(item[child], x) {
          break;
        }
        s := Swap(s, j, child);
        item[j] := item[child];
        j := child;
      }
      if 2 * j + 1 >= size {
        DownLeaf(s, j);
      }
      item[j] := x;
      assert item[..size] == s;
    }
  }
}
