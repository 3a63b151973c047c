/** The scheduler of `p3/platform/event_loop.cpp`, the one windows run on: the same heap of
    (deadline, event) pairs as the plain loop, guarded by a `stopped` flag instead of `closed`,
    with a list of observers told after each round of work.

    As for the plain loop, the clock is not read: each pass of the waiting loop in
    `pop_work_from_queue` takes the next of a finite sequence of clock readings, and a wait
    (the 500 ms poll on an empty queue, or the wait for the front's deadline) ends with the next
    reading. */
module PlatformEventLoops {
  import opened Heaps
  import opened Wrappers
  import opened Drains
  import opened Seqs

  /** What running a task does to its own loop, as far as the model follows it. */
  datatype Effect = Nothing | StopLoop | CloseLoop

  /** An `Event`, named by `id` so that runs can be compared. */
  datatype Task = Task(id: nat, effect: Effect)

  /** An `Observer*`: the loop keeps and compares pointers, so an observer is its identity. */
  type Observer = nat

  /** What running the loop does, in order: a task runs, or an observer is told
      `on_work_processed`. */
  datatype Entry = Ran(id: nat) | Notified(observer: Observer)

  /** Running the tasks of `work` one after the other. */
  function RanAll(work: seq<Task>): (r: seq<Entry>)
    ensures |r| == |work| && forall i :: 0 <= i < |work| ==> r[i] == Ran(work[i].id)
  {
    if work == [] then [] else [Ran(work[0].id)] + RanAll(work[1..])
  }

  /** Telling each of `observers` in turn. */
  function NotifyAll(observers: seq<Observer>): (r: seq<Entry>)
    ensures |r| == |observers| && forall i :: 0 <= i < |observers| ==> r[i] == Notified(observers[i])
  {
    if observers == [] then [] else [Notified(observers[0])] + NotifyAll(observers[1..])
  }

  /** One round of `run_forever` per batch of `rounds`: the batch's tasks in order, then every
      observer in registration order. */
  function Rounds(rounds: seq<seq<Scheduled<Task>>>, observers: seq<Observer>): seq<Entry> {
    if rounds == [] then []
    else Rounds(rounds[..|rounds| - 1], observers) + RanAll(Events(rounds[|rounds| - 1])) + NotifyAll(observers)
  }

  lemma RoundsAppend(rounds: seq<seq<Scheduled<Task>>>, r: seq<Scheduled<Task>>, observers: seq<Observer>)
    ensures Rounds(rounds + [r], observers) == Rounds(rounds, observers) + RanAll(Events(r)) + NotifyAll(observers)
  {
    assert (rounds + [r])[..|rounds|] == rounds;
  }

  /** Adding an observer that was not registered and removing it again restores the list. */
  lemma AddThenRemove(observers: seq<Observer>, o: Observer)
    requires o !in observers
    ensures Without(observers + [o], o) == observers
  {
    WithoutAppend(observers, [o], o);
    WithoutAbsent(observers, o);
    assert Without([o], o) == Without([o][1..], o);
    assert [o][1..] == [];
  }

  /** One of the first `i` tasks of `work` stops the loop (closing stops it too). */
  predicate StopsBefore(work: seq<Task>, i: nat)
    requires i <= |work|
  {
    exists j :: 0 <= j < i && work[j].effect != Nothing
  }

  /** One of the first `i` tasks of `work` closes the loop. */
  predicate ClosesBefore(work: seq<Task>, i: nat)
    requires i <= |work|
  {
    exists j :: 0 <= j < i && work[j].effect == CloseLoop
  }

  /** Some scheduled task in `s` stops the loop. */
  ghost predicate Stops(s: seq<Scheduled<Task>>) {
    exists e :: e in s && e.event.effect != Nothing
  }

  /** Some scheduled task in `s` closes the loop. */
  ghost predicate Closes(s: seq<Scheduled<Task>>) {
    exists e :: e in s && e.event.effect == CloseLoop
  }

  class EventLoop {
    /** `_queue`. */
    var queue: seq<Scheduled<Task>>
    /** `_stopped`. */
    var stopped: bool
    /** `_closed`. */
    var closed: bool
    /** `_observer`. */
    var observers: seq<Observer>

    /** The queue is a heap on deadlines, and a closed loop is stopped. */
    ghost predicate Valid()
      reads this`queue, this`stopped, this`closed
    {
      IsHeap(queue) && (closed ==> stopped)
    }

    constructor ()
      ensures Valid() && queue == [] && !stopped && !closed && observers == []
    {
      queue, stopped, closed, observers := [], false, false, [];
    }

    /** `add_observer`: appends. */
    method AddObserver(o: Observer)
      modifies this`observers
      ensures observers == old(observers) + [o]
    {
      observers := observers + [o];
    }

    /** `remove_observer`: erases every occurrence of `o`, keeping the others in order. */
    method RemoveObserver(o: Observer)
      modifies this`observers
      ensures observers == Without(old(observers), o)
      ensures forall x :: x in observers <==> x in old(observers) && x != o
    {
      WithoutMembers(observers, o);
      observers := Without(observers, o);
    }

    /** `call_at`: a stopped or closed loop drops the event; otherwise the pair joins the heap. */
    method CallAt(deadline: TimePoint, task: Task)
      requires Valid()
      modifies this`queue
      ensures Valid()
      ensures stopped || closed ==> queue == old(queue)
      ensures !stopped && !closed ==> multiset(queue) == multiset(old(queue)) + multiset{Scheduled(deadline, task)}
    {
      if stopped || closed {
        return;
      }
      queue := PushHeap(queue, Scheduled(deadline, task));
    }

    /** `stop`: sets `stopped` only; the queue stays. */
    method Stop()
      modifies this`stopped
      ensures stopped
    {
      stopped := true;
    }

    /** `close`: sets both flags; the queue stays. */
    method Close()
      modifies this`stopped, this`closed
      ensures stopped && closed
    {
      stopped, closed := true, true;
    }

    /** `pop_work_from_queue`: the plain loop's drain, guarded by `stopped`. `work` is `None`
        when the readings ran out first; `used` is how many it took and `taken` the drained
        pairs. A stopped loop yields empty work at once. */
    method PopWork(readings: seq<TimePoint>)
        returns (work: Option<seq<Task>>, used: nat, ghost taken: seq<Scheduled<Task>>)
      requires Valid()
      modifies this`queue
      ensures Valid()
      ensures Popped(old(queue), queue, readings, stopped, work, used, taken)
    {
      used, taken := 0, [];
      while !stopped
        invariant used <= |readings| && queue == old(queue) && (stopped ==> used == 0)
        invariant forall k :: 0 <= k < used ==> NothingDue(queue, readings[k])
        decreases |readings| - used
      {
        if used == |readings| {
          PoppedNothing(queue, readings, stopped);
          return None, used, [];
        }
        var now := readings[used];
        used := used + 1;
        if |queue| == 0 {
          continue;
        }
        if queue[0].deadline > now {
          FrontIsEarliest(queue);
          continue;
        }
        var batch, rest;
        ghost var q := queue;
        batch, rest, taken := DrainDue(queue, now);
        queue := rest;
        PoppedDue(q, rest, readings, used, batch, taken);
        return Some(batch), used, taken;
      }
      PoppedHalted(queue, readings);
      return Some([]), used, [];
    }

    /** The tasks of a batch, run in order; a task that stops or closes the loop does not keep
        the rest of the batch from running. */
    method RunTasks(work: seq<Task>) returns (log: seq<Entry>)
      requires Valid()
      modifies this`stopped, this`closed
      ensures Valid()
      ensures log == RanAll(work)
      ensures stopped <==> old(stopped) || StopsBefore(work, |work|)
      ensures closed <==> old(closed) || ClosesBefore(work, |work|)
    {
      log := [];
      for i := 0 to |work|
        invariant Valid() && |log| == i && forall j :: 0 <= j < i ==> log[j] == Ran(work[j].id)
        invariant stopped <==> old(stopped) || StopsBefore(work, i)
        invariant closed <==> old(closed) || ClosesBefore(work, i)
      {
        assert StopsBefore(work, i + 1) <==> StopsBefore(work, i) || work[i].effect != Nothing;
        assert ClosesBefore(work, i + 1) <==> ClosesBefore(work, i) || work[i].effect == CloseLoop;
        log := log + [Ran(work[i].id)];
        match work[i].effect {
          case Nothing =>
          case StopLoop => Stop();
          case CloseLoop => Close();
        }
      }
    }

    /** Every observer is told, in registration order. */
    method NotifyObservers() returns (log: seq<Entry>)
      ensures log == NotifyAll(observers)
    {
      log := [];
      for i := 0 to |observers|
        invariant |log| == i && forall j :: 0 <= j < i ==> log[j] == Notified(observers[j])
      {
        log := log + [Notified(observers[i])];
      }
    }

    /** `run_forever`: pops a batch, then repeatedly runs its tasks, tells the observers and pops
        the next, until a pop yields empty work, which happens exactly when the loop is stopped.
        `rounds` lists the batches, as pairs, in the order they ran; `at[i]` is how many
        readings had been made when the `i`-th pair that ran was taken off the queue; `used`
        readings were consumed. `finished` is false when the readings ran out while the loop was
        still waiting. */
    method RunForever(readings: seq<TimePoint>)
        returns (log: seq<Entry>, finished: bool, ghost rounds: seq<seq<Scheduled<Task>>>, ghost at: seq<nat>,
                 used: nat)
      requires Valid()
      modifies this`queue, this`stopped, this`closed
      ensures Valid()
      ensures log == Rounds(rounds, observers)
      ensures forall i :: 0 <= i < |rounds| && rounds[i] == [] ==> i == 0 && old(stopped)
      ensures multiset(Flatten(rounds)) + multiset(queue) == multiset(old(queue)) && Ascending(Flatten(rounds))
      ensures DueWhenRun(Flatten(rounds), at, readings, used)
      ensures forall k, e :: 0 <= k < used && e in queue ==> e.deadline > readings[k]
      ensures finished <==> stopped
      ensures !finished ==> used == |readings|
      ensures stopped <==> old(stopped) || Stops(Flatten(rounds))
      ensures closed <==> old(closed) || Closes(Flatten(rounds))
      ensures old(stopped) ==> finished && log == NotifyAll(observers)
    {
      ghost var q0, s0, c0 := queue, stopped, closed;
      var w, n;
      ghost var taken;
      w, n, taken := PopWork(readings);
      if w.None? {
        return [], false, [], [], n;
      }
      ghost var pending, took;
      log, finished, rounds, pending, took, at, used := Drive(q0, s0, c0, w.value, n, taken, readings);
      Concluded(q0, s0, c0, queue, stopped, closed, rounds, pending, took, at, log, readings, used, observers);
    }

    /** The `do ... while` of `run_forever`, from a first pop that yielded `work`, the events of
        `taken`, after `n` readings, until a pop yields empty work or the readings run out. The
        loop started with the queue `q0` and the flags `s0` and `c0`. */
    method Drive(ghost q0: seq<Scheduled<Task>>, ghost s0: bool, ghost c0: bool, work: seq<Task>, n: nat,
                 ghost taken: seq<Scheduled<Task>>, readings: seq<TimePoint>)
        returns (log: seq<Entry>, finished: bool, ghost rounds: seq<seq<Scheduled<Task>>>,
                 ghost pending: seq<Scheduled<Task>>, ghost took: seq<Scheduled<Task>>, ghost at: seq<nat>, used: nat)
      requires Valid() && Popped(q0, queue, readings, s0, Some(work), n, taken)
      requires stopped == s0 && closed == c0
      modifies this`queue, this`stopped, this`closed
      ensures Valid() && Ledger(q0, queue, took, readings, used) && DueWhenRun(took, at, readings, used)
      ensures Record(s0, c0, stopped, closed, rounds, pending, took, log, observers) && pending == []
      ensures (finished <==> stopped) && (!finished ==> used == |readings|)
      ensures s0 ==> rounds != []
    {
      took := Opened(q0, queue, readings, s0, c0, work, n, taken, observers);
      var work := work;
      pending := taken;
      rounds, at, log, used, finished := [], Repeat(n, |taken|), [], n, false;
      while true
        invariant Valid() && Ledger(q0, queue, took, readings, used) && DueWhenRun(took, at, readings, used)
        invariant Record(s0, c0, stopped, closed, rounds, pending, took, log, observers)
        invariant work == Events(pending) && (pending == [] ==> rounds == [] && s0)
        decreases |readings| - used
      {
        var w;
        w, rounds, pending, took, at, log, used := Cycle(q0, s0, c0, rounds, pending, took, at, log, work, readings, used);
        if w.None? {
          break;
        }
        if w.value == [] {
          finished := true;
          break;
        }
        work := w.value;
      }
    }

    /** One turn of the `do ... while` of `run_forever`: the pending batch's tasks run, every
        observer is told, and the next batch is popped. */
    method Cycle(ghost q0: seq<Scheduled<Task>>, ghost s0: bool, ghost c0: bool, ghost rounds: seq<seq<Scheduled<Task>>>,
                 ghost pending: seq<Scheduled<Task>>, ghost took: seq<Scheduled<Task>>, ghost at: seq<nat>,
                 log: seq<Entry>, work: seq<Task>, readings: seq<TimePoint>, used: nat)
        returns (w: Option<seq<Task>>, ghost rounds': seq<seq<Scheduled<Task>>>, ghost pending': seq<Scheduled<Task>>,
                 ghost took': seq<Scheduled<Task>>, ghost at': seq<nat>, log': seq<Entry>, used': nat)
      requires Valid() && Ledger(q0, queue, took, readings, used) && DueWhenRun(took, at, readings, used)
      requires Record(s0, c0, stopped, closed, rounds, pending, took, log, observers)
      requires work == Events(pending) && (pending == [] ==> rounds == [] && s0)
      modifies this`queue, this`stopped, this`closed
      ensures Valid() && Ledger(q0, queue, took', readings, used') && DueWhenRun(took', at', readings, used')
      ensures Record(s0, c0, stopped, closed, rounds', pending', took', log', observers)
      ensures rounds' != [] && used <= used'
      ensures w.None? ==> used' == |readings| && !stopped && pending' == []
      ensures w.Some? ==> w.value == Events(pending') && (w.value == [] <==> stopped)
      ensures w.Some? && w.value != [] ==> used < used'
      ensures w.Some? && w.value == [] ==> pending' == []
    {
      ghost var sb, cb := stopped, closed;
      var l1 := RunTasks(work);
      var l2 := NotifyObservers();
      ghost var q := queue;
      var n;
      ghost var taken;
      w, n, taken := PopWork(readings[used..]);
      log', used' := log + l1 + l2, used + n;
      rounds', pending', took', at' := rounds + [pending], taken, took + taken, at + Repeat(used + n, |taken|);
      Cycled(q0, s0, c0, q, queue, sb, cb, stopped, closed, rounds, pending, took, at, log, readings, used, observers,
             work, l1, l2, w, n, taken, rounds', took', at', log');
    }
  }

  /** The record `run_forever` keeps besides the ledger of its queue, from a start where the
      flags were `s0` and `c0`: `took`, every pair taken off the queue so far, is the batches
      run (`rounds`, in order) and then the one popped but not yet run (`pending`); the log
      holds one round per batch run; the flags were raised by the start or by a task that ran;
      a loop that started stopped takes nothing, and only its first batch is empty. */
  ghost predicate Record(s0: bool, c0: bool, stopped: bool, closed: bool, rounds: seq<seq<Scheduled<Task>>>,
                         pending: seq<Scheduled<Task>>, took: seq<Scheduled<Task>>, log: seq<Entry>,
                         observers: seq<Observer>)
  {
    && took == Flatten(rounds) + pending
    && log == Rounds(rounds, observers)
    && (stopped <==> s0 || Stops(Flatten(rounds)))
    && (closed <==> c0 || Closes(Flatten(rounds)))
    && (s0 ==> took == [])
    && (forall i :: 0 <= i < |rounds| && rounds[i] == [] ==> i == 0 && s0)
  }

  /** A first pop that yielded work opens the ledger and the record: what it took, `took`, is
      all that was taken so far. */
  lemma Opened(q0: seq<Scheduled<Task>>, q': seq<Scheduled<Task>>, readings: seq<TimePoint>, s0: bool, c0: bool,
               work: seq<Task>, n: nat, taken: seq<Scheduled<Task>>, observers: seq<Observer>)
      returns (took: seq<Scheduled<Task>>)
    requires Popped(q0, q', readings, s0, Some(work), n, taken)
    ensures Ledger(q0, q', took, readings, n) && DueWhenRun(took, Repeat(n, |taken|), readings, n)
    ensures Record(s0, c0, s0, c0, [], taken, took, [], observers)
    ensures work == Events(taken) && (taken == [] ==> s0)
  {
    took := taken;
    FirstLedger(q0, q', readings, s0, Some(work), n, taken);
    RecordStart(s0, c0, taken, observers);
  }

  /** The ledger after the first pop. */
  lemma FirstLedger(q0: seq<Scheduled<Task>>, q': seq<Scheduled<Task>>, readings: seq<TimePoint>, s0: bool,
                    w: Option<seq<Task>>, n: nat, taken: seq<Scheduled<Task>>)
    requires Popped(q0, q', readings, s0, w, n, taken)
    ensures Ledger(q0, q', taken, readings, n) && DueWhenRun(taken, Repeat(n, |taken|), readings, n)
  {
    if w.Some? && !s0 {
      Contained(taken, q', q0);
      if 2 <= n {
        assert NothingDue(q0, readings[n - 2]);
      }
      FirstDue(taken, readings, n);
    }
  }

  /** A batch due at reading `n - 1` was taken once `n` readings had been made. */
  lemma FirstDue(taken: seq<Scheduled<Task>>, readings: seq<TimePoint>, n: nat)
    requires 0 < n <= |readings| && forall e :: e in taken ==> e.deadline <= readings[n - 1]
    requires 2 <= n ==> forall e :: e in taken ==> e.deadline > readings[n - 2]
    ensures DueWhenRun(taken, Repeat(n, |taken|), readings, n)
  {
    forall i | 0 <= i < |taken|
      ensures taken[i].deadline <= readings[n - 1]
      ensures 2 <= n ==> taken[i].deadline > readings[n - 2]
    {
      assert taken[i] in taken;
    }
  }

  /** The record after the first pop, before anything ran. */
  lemma RecordStart(s0: bool, c0: bool, taken: seq<Scheduled<Task>>, observers: seq<Observer>)
    requires s0 ==> taken == []
    ensures Record(s0, c0, s0, c0, [], taken, taken, [], observers)
  {
    assert Flatten<Scheduled<Task>>([]) + taken == taken;
  }

  /** Running the pending batch, with the flags `sb` and `cb` before and `stopped` and
      `closed` after, and telling the observers, makes it the last round run; the pairs the
      next pop takes, none when the loop is stopped, become the pending batch. */
  lemma RoundRun(s0: bool, c0: bool, sb: bool, cb: bool, stopped: bool, closed: bool,
                 rounds: seq<seq<Scheduled<Task>>>, pending: seq<Scheduled<Task>>, took: seq<Scheduled<Task>>,
                 log: seq<Entry>, observers: seq<Observer>, work: seq<Task>, l1: seq<Entry>, l2: seq<Entry>,
                 taken: seq<Scheduled<Task>>, rounds': seq<seq<Scheduled<Task>>>, took': seq<Scheduled<Task>>,
                 log': seq<Entry>)
    requires Record(s0, c0, sb, cb, rounds, pending, took, log, observers)
    requires work == Events(pending) && (pending == [] ==> rounds == [] && s0)
    requires l1 == RanAll(work) && l2 == NotifyAll(observers)
    requires stopped <==> sb || StopsBefore(work, |work|)
    requires closed <==> cb || ClosesBefore(work, |work|)
    requires stopped ==> taken == []
    requires rounds' == rounds + [pending] && took' == took + taken && log' == log + l1 + l2
    ensures Record(s0, c0, stopped, closed, rounds', taken, took', log', observers)
  {
    FlattenAppend(rounds, pending);
    RoundsAppend(rounds, pending, observers);
    StopsEvents(pending);
    ClosesEvents(pending);
    StopsConcat(Flatten(rounds), pending);
    ClosesConcat(Flatten(rounds), pending);
    assert forall i :: 0 <= i < |rounds| ==> rounds'[i] == rounds[i];
  }

  /** A turn of `run_forever`: the round run with the flags `sb` and `cb` before and `stopped`
      and `closed` after, then the pop from `q` leaving `q'`. */
  lemma Cycled(q0: seq<Scheduled<Task>>, s0: bool, c0: bool, q: seq<Scheduled<Task>>, q': seq<Scheduled<Task>>,
               sb: bool, cb: bool, stopped: bool, closed: bool, rounds: seq<seq<Scheduled<Task>>>,
               pending: seq<Scheduled<Task>>, took: seq<Scheduled<Task>>, at: seq<nat>, log: seq<Entry>,
               readings: seq<TimePoint>, used: nat, observers: seq<Observer>, work: seq<Task>, l1: seq<Entry>,
               l2: seq<Entry>, w: Option<seq<Task>>, n: nat, taken: seq<Scheduled<Task>>,
               rounds': seq<seq<Scheduled<Task>>>, took': seq<Scheduled<Task>>, at': seq<nat>, log': seq<Entry>)
    requires Ledger(q0, q, took, readings, used) && DueWhenRun(took, at, readings, used)
    requires Record(s0, c0, sb, cb, rounds, pending, took, log, observers)
    requires work == Events(pending) && (pending == [] ==> rounds == [] && s0)
    requires l1 == RanAll(work) && l2 == NotifyAll(observers)
    requires stopped <==> sb || StopsBefore(work, |work|)
    requires closed <==> cb || ClosesBefore(work, |work|)
    requires Popped(q, q', readings[used..], stopped, w, n, taken)
    requires rounds' == rounds + [pending] && took' == took + taken && log' == log + l1 + l2
    requires at' == at + Repeat(used + n, |taken|)
    ensures Ledger(q0, q', took', readings, used + n) && DueWhenRun(took', at', readings, used + n)
    ensures Record(s0, c0, stopped, closed, rounds', taken, took', log', observers)
  {
    PopStep(q0, q, q', took, at, readings, used, stopped, w, n, taken, took', at');
    RoundRun(s0, c0, sb, cb, stopped, closed, rounds, pending, took, log, observers, work, l1, l2, taken,
             rounds', took', log');
  }

  /** What `run_forever` promises, read off the ledger and the record once nothing is pending. */
  lemma Concluded(q0: seq<Scheduled<Task>>, s0: bool, c0: bool, q: seq<Scheduled<Task>>, stopped: bool, closed: bool,
                  rounds: seq<seq<Scheduled<Task>>>, pending: seq<Scheduled<Task>>, took: seq<Scheduled<Task>>,
                  at: seq<nat>, log: seq<Entry>, readings: seq<TimePoint>, used: nat, observers: seq<Observer>)
    requires Ledger(q0, q, took, readings, used) && DueWhenRun(took, at, readings, used)
    requires Record(s0, c0, stopped, closed, rounds, pending, took, log, observers) && pending == []
    ensures multiset(Flatten(rounds)) + multiset(q) == multiset(q0) && Ascending(Flatten(rounds))
    ensures DueWhenRun(Flatten(rounds), at, readings, used)
    ensures forall k, e :: 0 <= k < used && e in q ==> e.deadline > readings[k]
    ensures log == Rounds(rounds, observers)
    ensures forall i :: 0 <= i < |rounds| && rounds[i] == [] ==> i == 0 && s0
    ensures stopped <==> s0 || Stops(Flatten(rounds))
    ensures closed <==> c0 || Closes(Flatten(rounds))
    ensures s0 && rounds != [] ==> log == NotifyAll(observers)
  {
    var none: seq<Scheduled<Task>> := [];
    assert Flatten(rounds) + none == Flatten(rounds);
    if s0 && rounds != [] {
      FlattenEmpty(rounds);
      assert rounds == [[]];
      assert Rounds(rounds, observers) == Rounds([], observers) + RanAll(Events(rounds[0])) + NotifyAll(observers);
    }
  }

  lemma StopsEvents(s: seq<Scheduled<Task>>)
    ensures StopsBefore(Events(s), |s|) <==> Stops(s)
  {
    if Stops(s) {
      var e :| e in s && e.event.effect != Nothing;
      var i :| 0 <= i < |s| && s[i] == e;
      assert Events(s)[i].effect != Nothing;
    }
    if StopsBefore(Events(s), |s|) {
      var i :| 0 <= i < |s| && Events(s)[i].effect != Nothing;
      assert s[i] in s;
    }
  }

  lemma ClosesEvents(s: seq<Scheduled<Task>>)
    ensures ClosesBefore(Events(s), |s|) <==> Closes(s)
  {
    if Closes(s) {
      var e :| e in s && e.event.effect == CloseLoop;
      var i :| 0 <= i < |s| && s[i] == e;
      assert Events(s)[i].effect == CloseLoop;
    }
    if ClosesBefore(Events(s), |s|) {
      var i :| 0 <= i < |s| && Events(s)[i].effect == CloseLoop;
      assert s[i] in s;
    }
  }

  lemma StopsConcat(a: seq<Scheduled<Task>>, b: seq<Scheduled<Task>>)
    ensures Stops(a + b) <==> Stops(a) || Stops(b)
  {
    if Stops(a + b) {
      var e :| e in a + b && e.event.effect != Nothing;
      assert e in a || e in b;
    }
    if Stops(a) {
      var e :| e in a && e.event.effect != Nothing;
      assert e in a + b;
    }
    if Stops(b) {
      var e :| e in b && e.event.effect != Nothing;
      assert e in a + b;
    }
  }

  lemma ClosesConcat(a: seq<Scheduled<Task>>, b: seq<Scheduled<Task>>)
    ensures Closes(a + b) <==> Closes(a) || Closes(b)
  {
    if Closes(a + b) {
      var e :| e in a + b && e.event.effect == CloseLoop;
      assert e in a || e in b;
    }
    if Closes(a) {
      var e :| e in a && e.event.effect == CloseLoop;
      assert e in a + b;
    }
    if Closes(b) {
      var e :| e in b && e.event.effect == CloseLoop;
      assert e in a + b;
    }
  }
}
