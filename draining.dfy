/** What `pop_work_from_queue` promises and the bookkeeping `run_forever` keeps across pops,
    the same for both event loops: each drains the due pairs of its heap while a flag (`_closed`
    for the plain loop, `_stopped` for the platform loop) is down, and runs what it drained. */
module Drains {
  import opened Heaps
  import opened Wrappers

  /** What `pop_work_from_queue` promises, given the queue `q` before and `q'` after, the
      readings, whether the loop's guarding flag is up (`halted`), and the outcome `work` after
      `used` readings with the pairs `taken`:
      - a halted loop yields empty work at once and keeps the queue; a running one never yields
        empty work;
      - when the readings run out nothing is taken;
      - otherwise the work is the events of `taken`, earliest first, all due at the last reading
        used, and that reading is the first at which anything in `q` was due;
      - nothing is lost: `taken` and `q'` together are `q`, and every pair left is later than
        every pair taken and was not due at any reading used. */
  ghost predicate Popped<T>(q: seq<Scheduled<T>>, q': seq<Scheduled<T>>, readings: seq<TimePoint>, halted: bool,
                            work: Option<seq<T>>, used: nat, taken: seq<Scheduled<T>>)
  {
    && used <= |readings|
    && (halted ==> work == Some([]) && used == 0 && taken == [] && q' == q)
    && (!halted ==> work != Some([]))
    && (work.None? ==> used == |readings| && taken == [] && q' == q)
    && (work.Some? ==> work.value == Events(taken) && Ascending(taken))
    && (work.Some? && !halted ==> used > 0 && forall e :: e in taken ==> e.deadline <= readings[used - 1])
    && (work.Some? && !halted ==> forall k :: 0 <= k < used - 1 ==> NothingDue(q, readings[k]))
    && multiset(taken) + multiset(q') == multiset(q)
    && (forall k, e :: 0 <= k < used && e in q' ==> e.deadline > readings[k])
    && (forall a, b :: a in taken && b in q' ==> a.deadline <= b.deadline)
  }

  lemma PoppedHalted<T>(q: seq<Scheduled<T>>, readings: seq<TimePoint>)
    ensures Popped(q, q, readings, true, Some([]), 0, [])
  { }

  /** A pop that yields no work, or empty work, takes nothing and leaves the queue as it was. */
  lemma PoppedNothingTaken<T>(q: seq<Scheduled<T>>, q': seq<Scheduled<T>>, readings: seq<TimePoint>, halted: bool,
                              w: Option<seq<T>>, n: nat, taken: seq<Scheduled<T>>)
    requires Popped(q, q', readings, halted, w, n, taken) && (w.None? || w.value == [])
    ensures taken == [] && q' == q && (w.Some? ==> halted)
  {
    if w.Some? {
      assert halted;
    }
  }

  lemma PoppedNothing<T>(q: seq<Scheduled<T>>, readings: seq<TimePoint>, halted: bool)
    requires !halted && forall k :: 0 <= k < |readings| ==> NothingDue(q, readings[k])
    ensures Popped(q, q, readings, halted, None, |readings|, [])
  { }

  /** A drain at `readings[used - 1]` after `used - 1` readings at which nothing was due. */
  lemma PoppedDue<T>(q: seq<Scheduled<T>>, rest: seq<Scheduled<T>>, readings: seq<TimePoint>, used: nat,
                  batch: seq<T>, taken: seq<Scheduled<T>>)
    requires 0 < used <= |readings|
    requires forall k :: 0 <= k < used - 1 ==> NothingDue(q, readings[k])
    requires |q| > 0 && q[0].deadline <= readings[used - 1]
    requires batch == Events(taken) && Ascending(taken)
    requires multiset(taken) + multiset(rest) == multiset(q)
    requires forall e :: e in taken ==> e.deadline <= readings[used - 1]
    requires NothingDue(rest, readings[used - 1])
    requires forall a, b :: a in taken && b in rest ==> a.deadline <= b.deadline
    ensures Popped(q, rest, readings, false, Some(batch), used, taken)
  {
    Contained(taken, rest, q);
    FrontTaken(q, rest, taken, readings[used - 1]);
  }

  /** A drain at `now` takes the front of the queue when it is due. */
  lemma FrontTaken<T>(q: seq<Scheduled<T>>, rest: seq<Scheduled<T>>, taken: seq<Scheduled<T>>, now: TimePoint)
    requires multiset(taken) + multiset(rest) == multiset(q)
    requires |q| > 0 && q[0].deadline <= now && NothingDue(rest, now)
    ensures taken != []
  {
    assert q[0] in multiset(q) && q[0] !in rest;
    assert q[0] in multiset(taken);
  }

  /** The pairs that ran and the queue `q` together are `q0`; they ran earliest first and no
      later than anything still queued; nothing queued was due at a reading used so far. */
  ghost predicate Ledger<T>(q0: seq<Scheduled<T>>, q: seq<Scheduled<T>>, ran: seq<Scheduled<T>>,
                         readings: seq<TimePoint>, used: nat)
  {
    && used <= |readings|
    && multiset(ran) + multiset(q) == multiset(q0)
    && Ascending(ran)
    && (forall a, b :: a in ran && b in q ==> a.deadline <= b.deadline)
    && (forall k, e :: 0 <= k < used && e in q ==> e.deadline > readings[k])
  }

  /** `ran[i]` was taken off the queue once `at[i]` readings had been made, was due at the last
      of them and not yet due at the one before: it was taken at the first reading it was due. */
  ghost predicate DueWhenRun<T>(ran: seq<Scheduled<T>>, at: seq<nat>, readings: seq<TimePoint>, used: nat) {
    && |at| == |ran| && used <= |readings|
    && (forall i :: 0 <= i < |ran| ==> 0 < at[i] <= used && ran[i].deadline <= readings[at[i] - 1])
    && (forall i :: 0 <= i < |ran| && 2 <= at[i] ==> ran[i].deadline > readings[at[i] - 2])
  }

  /** Running a batch popped at reading `used + n - 1` moves it from the queue to what ran. */
  lemma LedgerBatch<T>(q0: seq<Scheduled<T>>, q: seq<Scheduled<T>>, q': seq<Scheduled<T>>,
                    ran: seq<Scheduled<T>>, taken: seq<Scheduled<T>>, readings: seq<TimePoint>, used: nat, n: nat)
    requires Ledger(q0, q, ran, readings, used) && used + n <= |readings|
    requires multiset(taken) + multiset(q') == multiset(q) && Ascending(taken)
    requires forall k, e :: 0 <= k < n && e in q' ==> e.deadline > readings[used..][k]
    requires forall a, b :: a in taken && b in q' ==> a.deadline <= b.deadline
    ensures Ledger(q0, q', ran + taken, readings, used + n)
  {
    Contained(taken, q', q);
    AscendingJoin(ran, taken, q);
    LaterJoin(ran, taken, q, q');
    NotDueJoin(q, q', readings, used, n);
  }

  /** Any pop extends the bookkeeping: the pairs it took join what ran, as taken once the
      readings it made had been made, and the readings it made join those used. */
  lemma PopStep<T>(q0: seq<Scheduled<T>>, q: seq<Scheduled<T>>, q': seq<Scheduled<T>>, ran: seq<Scheduled<T>>,
                   at: seq<nat>, readings: seq<TimePoint>, used: nat, halted: bool, w: Option<seq<T>>, n: nat,
                   taken: seq<Scheduled<T>>, ran': seq<Scheduled<T>>, at': seq<nat>)
    requires Ledger(q0, q, ran, readings, used) && DueWhenRun(ran, at, readings, used)
    requires Popped(q, q', readings[used..], halted, w, n, taken)
    requires ran' == ran + taken && at' == at + Repeat(used + n, |taken|)
    ensures Ledger(q0, q', ran', readings, used + n)
    ensures DueWhenRun(ran', at', readings, used + n)
  {
    if w.Some? && !halted {
      LedgerBatch(q0, q, q', ran, taken, readings, used, n);
      DueBatch(q, q', ran, at, readings, used, w, n, taken);
    } else {
      PopIdle(q0, q, q', ran, at, readings, used, halted, w, n, taken);
      assert ran' == ran && at' == at;
    }
  }

  /** A pop that took nothing keeps the bookkeeping, apart from the readings it made. */
  lemma PopIdle<T>(q0: seq<Scheduled<T>>, q: seq<Scheduled<T>>, q': seq<Scheduled<T>>, ran: seq<Scheduled<T>>,
                   at: seq<nat>, readings: seq<TimePoint>, used: nat, halted: bool, w: Option<seq<T>>, n: nat,
                   taken: seq<Scheduled<T>>)
    requires Ledger(q0, q, ran, readings, used) && DueWhenRun(ran, at, readings, used)
    requires Popped(q, q', readings[used..], halted, w, n, taken) && (w.None? || halted)
    ensures taken == [] && Ledger(q0, q', ran, readings, used + n) && DueWhenRun(ran, at, readings, used + n)
  {
    if w.Some? {
      assert halted;
    }
    assert taken == [] && q' == q;
    NotDueJoin(q, q', readings, used, n);
  }

  /** A batch popped from a running loop joins what ran as taken at the pop's last reading. */
  lemma DueBatch<T>(q: seq<Scheduled<T>>, q': seq<Scheduled<T>>, ran: seq<Scheduled<T>>, at: seq<nat>,
                    readings: seq<TimePoint>, used: nat, w: Option<seq<T>>, n: nat, taken: seq<Scheduled<T>>)
    requires used <= |readings| && Popped(q, q', readings[used..], false, w, n, taken) && w.Some?
    requires forall k, e :: 0 <= k < used && e in q ==> e.deadline > readings[k]
    requires DueWhenRun(ran, at, readings, used)
    ensures DueWhenRun(ran + taken, at + Repeat(used + n, |taken|), readings, used + n)
  {
    assert readings[used..][n - 1] == readings[used + n - 1];
    NotDueBefore(q, q', readings, used, w, n, taken);
    DueJoin(ran, at, taken, readings, used, n);
  }

  /** A batch popped from a running loop was not yet due at the reading before the one it was
      taken at: either an earlier reading of the same pop, where nothing was due, or the last
      reading of an earlier pop, which left nothing due in the queue. */
  lemma NotDueBefore<T>(q: seq<Scheduled<T>>, q': seq<Scheduled<T>>, readings: seq<TimePoint>, used: nat,
                        w: Option<seq<T>>, n: nat, taken: seq<Scheduled<T>>)
    requires used <= |readings| && Popped(q, q', readings[used..], false, w, n, taken) && w.Some?
    requires forall k, e :: 0 <= k < used && e in q ==> e.deadline > readings[k]
    ensures 2 <= used + n ==> forall e :: e in taken ==> e.deadline > readings[used + n - 2]
  {
    Contained(taken, q', q);
    if 2 <= n {
      assert readings[used..][n - 2] == readings[used + n - 2];
      assert NothingDue(q, readings[used..][n - 2]);
    }
  }

  /** Two parts of `q` by count lie in `q`. */
  lemma Contained<T>(taken: seq<Scheduled<T>>, q': seq<Scheduled<T>>, q: seq<Scheduled<T>>)
    requires multiset(taken) + multiset(q') == multiset(q)
    ensures forall b :: b in q' ==> b in q
    ensures forall a :: a in taken ==> a in q
  {
    forall b | b in q' ensures b in q {
      assert b in multiset(q');
      assert b in multiset(q);
    }
    forall a | a in taken ensures a in q {
      assert a in multiset(taken);
      assert a in multiset(q);
    }
  }

  /** What remains after a batch is no earlier than what ran before it or in it. */
  lemma LaterJoin<T>(ran: seq<Scheduled<T>>, taken: seq<Scheduled<T>>, q: seq<Scheduled<T>>, q': seq<Scheduled<T>>)
    requires forall b :: b in q' ==> b in q
    requires forall a, b :: a in ran && b in q ==> a.deadline <= b.deadline
    requires forall a, b :: a in taken && b in q' ==> a.deadline <= b.deadline
    ensures forall a, b :: a in ran + taken && b in q' ==> a.deadline <= b.deadline
  { }

  /** What remains after a pop was not due at the readings before it nor at those it used. */
  lemma NotDueJoin<T>(q: seq<Scheduled<T>>, q': seq<Scheduled<T>>, readings: seq<TimePoint>, used: nat, n: nat)
    requires used + n <= |readings| && forall b :: b in q' ==> b in q
    requires forall k, e :: 0 <= k < used && e in q ==> e.deadline > readings[k]
    requires forall k, e :: 0 <= k < n && e in q' ==> e.deadline > readings[used..][k]
    ensures forall k, e :: 0 <= k < used + n && e in q' ==> e.deadline > readings[k]
  {
    forall k, e | 0 <= k < used + n && e in q' ensures e.deadline > readings[k] {
      if k >= used {
        assert readings[used..][k - used] == readings[k];
      }
    }
  }

  /** A batch due at reading `used + n - 1` joins what ran. */
  lemma DueJoin<T>(ran: seq<Scheduled<T>>, at: seq<nat>, taken: seq<Scheduled<T>>, readings: seq<TimePoint>, used: nat, n: nat)
    requires DueWhenRun(ran, at, readings, used) && 0 < n && used + n <= |readings|
    requires forall e :: e in taken ==> e.deadline <= readings[used + n - 1]
    requires 2 <= used + n ==> forall e :: e in taken ==> e.deadline > readings[used + n - 2]
    ensures DueWhenRun(ran + taken, at + Repeat(used + n, |taken|), readings, used + n)
  {
    var ran', at' := ran + taken, at + Repeat(used + n, |taken|);
    forall i | 0 <= i < |ran'|
      ensures 0 < at'[i] <= used + n && ran'[i].deadline <= readings[at'[i] - 1]
      ensures 2 <= at'[i] ==> ran'[i].deadline > readings[at'[i] - 2]
    {
      if i >= |ran| {
        assert ran'[i] == taken[i - |ran|] && taken[i - |ran|] in taken;
      }
    }
  }

  /** Appending a batch drawn from the queue keeps what ran in ascending order. */
  lemma AscendingJoin<T>(ran: seq<Scheduled<T>>, taken: seq<Scheduled<T>>, q: seq<Scheduled<T>>)
    requires Ascending(ran) && Ascending(taken) && forall a :: a in taken ==> a in q
    requires forall a, b :: a in ran && b in q ==> a.deadline <= b.deadline
    ensures Ascending(ran + taken)
  {
    forall i, j | 0 <= i < j < |ran + taken| ensures (ran + taken)[i].deadline <= (ran + taken)[j].deadline {
      if i < |ran| && j >= |ran| {
        assert (ran + taken)[j] == taken[j - |ran|] && taken[j - |ran|] in taken;
        assert ran[i] in ran;
      }
    }
  }

  /** `n` copies of `x`. */
  function Repeat(x: nat, n: nat): (r: seq<nat>)
    ensures |r| == n && forall i :: 0 <= i < n ==> r[i] == x
  {
    if n == 0 then [] else [x] + Repeat(x, n - 1)
  }
}
