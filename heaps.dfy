/** The scheduling queue both event loops keep: a vector of (deadline, event) pairs arranged by
    `std::push_heap` / `std::pop_heap` with `event_comparator`, which compares `l.first > r.first`.
    Handed that "greater" comparator, the standard heap algorithms keep the EARLIEST deadline at
    the front, so the vector is a binary min-heap on deadlines. */
module Heaps {

  /** A clock reading, in ticks of the loop's clock. */
  type TimePoint = int

  /** `ScheduledEvent`: the pair (time point, event). */
  datatype Scheduled<T> = Scheduled(deadline: TimePoint, event: T)

  /** `event_comparator`: `l` goes below `r` in the heap when its deadline is later. */
  predicate Later<T>(l: Scheduled<T>, r: Scheduled<T>) {
    l.deadline > r.deadline
  }

  /** Index of the parent of slot `i > 0` in the implicit binary tree of a heap vector. */
  function Parent(i: nat): (p: nat)
    requires i > 0
    ensures p < i && (i == 2 * p + 1 || i == 2 * p + 2)
  {
    (i - 1) / 2
  }

  /** The heap property under `event_comparator`: no slot is later than any of its children. */
  ghost predicate IsHeap<T>(q: seq<Scheduled<T>>) {
    forall i :: 0 < i < |q| ==> !Later(q[Parent(i)], q[i])
  }

  /** Deadlines never decrease along `s`: the order a batch of work comes out of the heap. */
  ghost predicate Ascending<T>(s: seq<Scheduled<T>>) {
    forall i, j :: 0 <= i < j < |s| ==> s[i].deadline <= s[j].deadline
  }

  /** The events of a sequence of scheduled pairs, in order (`work.push_back(front.second)`). */
  function Events<T>(s: seq<Scheduled<T>>): (r: seq<T>)
    ensures |r| == |s| && forall i :: 0 <= i < |s| ==> r[i] == s[i].event
  {
    if s == [] then [] else [s[0].event] + Events(s[1..])
  }

  lemma EventsAppend<T>(s: seq<Scheduled<T>>, e: Scheduled<T>)
    ensures Events(s + [e]) == Events(s) + [e.event]
  { }

  lemma EventsConcat<T>(s: seq<Scheduled<T>>, t: seq<Scheduled<T>>)
    ensures Events(s + t) == Events(s) + Events(t)
  {
    assert forall i :: 0 <= i < |s + t| ==> Events(s + t)[i] == (Events(s) + Events(t))[i];
  }

  /** The batches of a run, one after the other. */
  function Flatten<X>(rs: seq<seq<X>>): (r: seq<X>)
    ensures forall x :: x in r ==> exists i :: 0 <= i < |rs| && x in rs[i]
  {
    if rs == [] then [] else Flatten(rs[..|rs| - 1]) + rs[|rs| - 1]
  }

  lemma FlattenAppend<X>(rs: seq<seq<X>>, r: seq<X>)
    ensures Flatten(rs + [r]) == Flatten(rs) + r
  {
    assert (rs + [r])[..|rs|] == rs;
  }

  /** Batches that flatten to nothing are all empty. */
  lemma {:induction false} FlattenEmpty<X>(rs: seq<seq<X>>)
    requires Flatten(rs) == []
    ensures forall i :: 0 <= i < |rs| ==> rs[i] == []
  {
    if rs != [] {
      var init := rs[..|rs| - 1];
      FlattenEmpty(init);
      forall i | 0 <= i < |rs| ensures rs[i] == [] {
        if i < |rs| - 1 {
          assert rs[i] == init[i];
        }
      }
    }
  }

  /** Nothing in `q` is due at `now`: `pop_work_from_queue` waits (an empty queue included). */
  ghost predicate NothingDue<T>(q: seq<Scheduled<T>>, now: TimePoint) {
    forall e :: e in q ==> e.deadline > now
  }

  /** Every slot's deadline is no earlier than that of each of its ancestors, in particular the
      front's. */
  lemma {:induction false} FrontNoLaterThan<T>(q: seq<Scheduled<T>>, i: nat)
    requires IsHeap(q) && i < |q|
    ensures q[0].deadline <= q[i].deadline
    decreases i
  {
    if i > 0 {
      FrontNoLaterThan(q, Parent(i));
    }
  }

  /** The front of a heap holds the earliest deadline. */
  lemma FrontIsEarliest<T>(q: seq<Scheduled<T>>)
    requires IsHeap(q) && |q| > 0
    ensures forall e :: e in q ==> q[0].deadline <= e.deadline
  {
    forall e | e in q ensures q[0].deadline <= e.deadline {
      var i :| 0 <= i < |q| && q[i] == e;
      FrontNoLaterThan(q, i);
    }
  }

  /** `h` with the slots `i` and `j` exchanged. */
  function Swap<T>(h: seq<Scheduled<T>>, i: nat, j: nat): (r: seq<Scheduled<T>>)
    requires i < |h| && j < |h|
    ensures |r| == |h| && r[i] == h[j] && r[j] == h[i]
    ensures forall k :: 0 <= k < |h| && k != i && k != j ==> r[k] == h[k]
  {
    h[i := h[j]][j := h[i]]
  }

  lemma SwapKeepsContents<T>(h: seq<Scheduled<T>>, i: nat, j: nat)
    requires i < |h| && j < |h|
    ensures multiset(Swap(h, i, j)) == multiset(h)
  { }

  /** The heap property at every slot except `i` (sifting up: `i` may be earlier than its parent). */
  ghost predicate HeapAbove<T>(h: seq<Scheduled<T>>, i: nat) {
    forall j :: 0 < j < |h| && j != i ==> !Later(h[Parent(j)], h[j])
  }

  /** The heap property between every parent and child except between `i` and its children
      (sifting down: `i` may be later than a child). */
  ghost predicate HeapBelow<T>(h: seq<Scheduled<T>>, i: nat) {
    forall j :: 0 < j < |h| && Parent(j) != i ==> !Later(h[Parent(j)], h[j])
  }

  /** The parent of `i` is no later than the children of `i`: the link a sift skips over. */
  ghost predicate Bridged<T>(h: seq<Scheduled<T>>, i: nat) {
    i > 0 ==> forall j :: 0 < j < |h| && Parent(j) == i ==> !Later(h[Parent(i)], h[j])
  }

  /** One exchange of the sift up moves the slot that may be out of place to the parent. */
  lemma SiftUpStep<T>(h: seq<Scheduled<T>>, i: nat)
    requires 0 < i < |h| && HeapAbove(h, i) && Bridged(h, i) && Later(h[Parent(i)], h[i])
    ensures HeapAbove(Swap(h, i, Parent(i)), Parent(i)) && Bridged(Swap(h, i, Parent(i)), Parent(i))
  {
    var p := Parent(i);
    var r := Swap(h, i, p);
    forall j | 0 < j < |r| && j != p ensures !Later(r[Parent(j)], r[j]) {
      if j == i {
      } else if Parent(j) == i {
      } else if Parent(j) == p {
      }
    }
  }

  /** One exchange of the sift down moves the slot that may be out of place to its earlier
      child `c`. */
  lemma SiftDownStep<T>(h: seq<Scheduled<T>>, i: nat, c: nat)
    requires c < |h| && c > 0 && Parent(c) == i && HeapBelow(h, i) && Bridged(h, i)
    requires forall j :: 0 < j < |h| && Parent(j) == i ==> !Later(h[c], h[j])
    requires Later(h[i], h[c])
    ensures HeapBelow(Swap(h, i, c), c) && Bridged(Swap(h, i, c), c)
  {
    var r := Swap(h, i, c);
    forall j | 0 < j < |r| && Parent(j) != c ensures !Later(r[Parent(j)], r[j]) {
      if j == c {
      } else if Parent(j) == i {
      } else if j == i {
      }
    }
  }

  /** `emplace_back` followed by `std::push_heap`: the new pair is appended and sifted up past
      every parent that is later than it. */
  method PushHeap<T(==)>(q: seq<Scheduled<T>>, e: Scheduled<T>) returns (h: seq<Scheduled<T>>)
    requires IsHeap(q)
    ensures IsHeap(h)
    ensures multiset(h) == multiset(q) + multiset{e}
  {
    h := q + [e];
    var i := |q|;
    while i > 0 && Later(h[Parent(i)], h[i])
      invariant 0 <= i < |h|
      invariant multiset(h) == multiset(q) + multiset{e}
      invariant HeapAbove(h, i) && Bridged(h, i)
    {
      var p := Parent(i);
      SiftUpStep(h, i);
      SwapKeepsContents(h, i, p);
      h := Swap(h, i, p);
      i := p;
    }
  }

  /** `std::pop_heap` followed by `pop_back`: the front is taken out, the last pair moves into its
      slot and is sifted down past every child that is earlier than it, always towards the
      earlier child. */
  method PopHeap<T(==)>(q: seq<Scheduled<T>>) returns (front: Scheduled<T>, h: seq<Scheduled<T>>)
    requires IsHeap(q) && |q| > 0
    ensures front == q[0] && |h| == |q| - 1
    ensures IsHeap(h)
    ensures multiset(h) + multiset{front} == multiset(q)
  {
    front := q[0];
    h := PopFront(q);
    if |h| == 0 {
      return;
    }
    var i := 0;
    while true
      invariant 0 <= i < |h| == |q| - 1
      invariant multiset(h) + multiset{front} == multiset(q)
      invariant HeapBelow(h, i) && Bridged(h, i)
      decreases |h| - i
    {
      if 2 * i + 1 >= |h| {
        SiftDownDone(h, i);
        break;
      }
      var c := EarlierChild(h, i);
      if !Later(h[i], h[c]) {
        SiftDownDone(h, i);
        break;
      }
      SiftDownStep(h, i, c);
      SwapKeepsContents(h, i, c);
      h := Swap(h, i, c);
      i := c;
    }
  }

  /** The child of `i` the sift down follows: the left one, unless the right one exists and the
      left one is later. */
  function EarlierChild<T>(h: seq<Scheduled<T>>, i: nat): (c: nat)
    requires 2 * i + 1 < |h|
    ensures c < |h| && c > 0 && Parent(c) == i
    ensures forall j :: 0 < j < |h| && Parent(j) == i ==> !Later(h[c], h[j])
  {
    if 2 * i + 2 < |h| && Later(h[2 * i + 1], h[2 * i + 2]) then 2 * i + 2 else 2 * i + 1
  }

  /** The sift down stops where the slot is no later than any of its children (or has none):
      the whole vector is then a heap. */
  lemma SiftDownDone<T>(h: seq<Scheduled<T>>, i: nat)
    requires HeapBelow(h, i)
    requires forall j :: 0 < j < |h| && Parent(j) == i ==> !Later(h[i], h[j])
    ensures IsHeap(h)
  { }

  /** The first half of `std::pop_heap` and `pop_back`: the last pair takes the front's slot and
      the vector shrinks by one; only the new front may be out of place. */
  function PopFront<T(==)>(q: seq<Scheduled<T>>): (h: seq<Scheduled<T>>)
    requires IsHeap(q) && |q| > 0
    ensures |h| == |q| - 1 && HeapBelow(h, 0) && Bridged(h, 0)
    ensures multiset(h) + multiset{q[0]} == multiset(q)
  {
    if |q| == 1 then []
    else
      var h := q[..|q| - 1][0 := q[|q| - 1]];
      assert h == [q[|q| - 1]] + q[1..|q| - 1];
      assert q == [q[0]] + q[1..|q| - 1] + [q[|q| - 1]];
      h
  }

  /** The inner loop of `pop_work_from_queue`: while the heap is non-empty and its front is due
      at `now`, the front's event is appended to the work and the front is popped. The batch is
      exactly the due pairs, earliest first, and what stays is still a heap of pairs not yet due. */
  method DrainDue<T(==)>(q: seq<Scheduled<T>>, now: TimePoint)
      returns (work: seq<T>, rest: seq<Scheduled<T>>, ghost taken: seq<Scheduled<T>>)
    requires IsHeap(q)
    ensures work == Events(taken)
    ensures IsHeap(rest)
    ensures multiset(taken) + multiset(rest) == multiset(q)
    ensures forall e :: e in taken ==> e.deadline <= now
    ensures forall e :: e in rest ==> e.deadline > now
    ensures Ascending(taken)
  {
    work, rest, taken := [], q, [];
    while |rest| > 0 && rest[0].deadline <= now
      invariant IsHeap(rest) && work == Events(taken)
      invariant multiset(taken) + multiset(rest) == multiset(q)
      invariant forall e :: e in taken ==> e.deadline <= now
      invariant Ascending(taken)
      invariant forall a, b :: a in taken && b in rest ==> a.deadline <= b.deadline
      decreases |rest|
    {
      FrontIsEarliest(rest);
      var front;
      ghost var before := rest;
      front, rest := PopHeap(rest);
      forall b | b in rest ensures b in before {
        assert multiset(rest)[b] > 0;
        assert multiset(before)[b] > 0;
      }
      EventsAppend(taken, front);
      work := work + [front.event];
      taken := taken + [front];
    }
    if |rest| > 0 {
      FrontIsEarliest(rest);
    }
  }

  /** No two pairs of `s` share a deadline. */
  ghost predicate DistinctDeadlines<T>(s: seq<Scheduled<T>>) {
    forall i, j :: 0 <= i < j < |s| ==> s[i].deadline != s[j].deadline
  }

  /** Two ascending listings of the same pairs with distinct deadlines start with the same pair. */
  lemma SameFirst<T>(s: seq<Scheduled<T>>, t: seq<Scheduled<T>>)
    requires Ascending(s) && Ascending(t) && multiset(s) == multiset(t) && DistinctDeadlines(s)
    requires |s| > 0
    ensures |t| > 0 && s[0] == t[0]
  {
    assert s[0] in multiset(t);
    var i :| 0 <= i < |t| && t[i] == s[0];
    assert t[0] in multiset(s);
    var j :| 0 <= j < |s| && s[j] == t[0];
    assert s[0].deadline <= s[j].deadline;
    assert t[0].deadline <= t[i].deadline;
  }

  /** Dropping the first pair keeps a listing ascending and its deadlines distinct. */
  lemma TailKeeps<T>(s: seq<Scheduled<T>>)
    requires |s| > 0 && Ascending(s) && DistinctDeadlines(s)
    ensures Ascending(s[1..]) && DistinctDeadlines(s[1..])
  { }

  /** Two ascending listings of the same pairs that start alike agree on what follows. */
  lemma SameTails<T>(s: seq<Scheduled<T>>, t: seq<Scheduled<T>>)
    requires Ascending(t) && multiset(s) == multiset(t)
    requires |s| > 0 && |t| > 0 && s[0] == t[0]
    ensures Ascending(t[1..]) && multiset(s[1..]) == multiset(t[1..])
  {
    assert s == [s[0]] + s[1..] && t == [t[0]] + t[1..];
    assert multiset(s[1..]) == multiset(s) - multiset{s[0]};
    assert multiset(t[1..]) == multiset(t) - multiset{t[0]};
  }

  /** A batch in ascending order whose deadlines are pairwise distinct is fixed by its contents:
      there is only one way to list them earliest first. */
  lemma {:induction false} AscendingDistinctUnique<T>(s: seq<Scheduled<T>>, t: seq<Scheduled<T>>)
    requires Ascending(s) && Ascending(t) && multiset(s) == multiset(t)
    requires DistinctDeadlines(s)
    ensures s == t
    decreases |s|
  {
    if |s| == 0 {
      assert |t| == |multiset(t)| == 0;
    } else {
      SameFirst(s, t);
      TailKeeps(s);
      SameTails(s, t);
      AscendingDistinctUnique(s[1..], t[1..]);
      assert s == [s[0]] + s[1..] && t == [t[0]] + t[1..];
    }
  }
}
