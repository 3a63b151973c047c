/** The plain scheduler of `p3/event_loop.cpp`: a queue of (deadline, event) pairs kept as a
    min-heap on deadlines, a `closed` flag, `call_at`, `close`, the draining
    `pop_work_from_queue`, `process_work` and `run_forever`.

    The clock is not read by the model: every pass of the waiting loop in
    `pop_work_from_queue` takes the next reading from a finite sequence of clock readings, and
    a wait ends with the next reading (a notification, a timeout or a spurious wake-up alike).
    When the readings run out while the loop would still be waiting, the run stops there. */
module EventLoops {
  import opened Heaps
  import opened Wrappers
  import opened Drains

  /** What running a task does to its own loop, as far as the model follows it. */
  datatype Effect = Nothing | CloseLoop

  /** An `Event`: a callable, named by `id` so that runs can be compared. */
  datatype Task = Task(id: nat, effect: Effect)

  /** One second of the loop's clock, whose ticks are nanoseconds. */
  const Second: int := 1_000_000_000

  /** One millisecond of the loop's clock. */
  const Millisecond: int := 1_000_000

  /** The ids of `work`, in order: what running the work one task after the other records. */
  function Ids(work: seq<Task>): (r: seq<nat>)
    ensures |r| == |work| && forall i :: 0 <= i < |work| ==> r[i] == work[i].id
  {
    if work == [] then [] else [work[0].id] + Ids(work[1..])
  }

  lemma IdsConcat(a: seq<Task>, b: seq<Task>)
    ensures Ids(a + b) == Ids(a) + Ids(b)
  {
    assert forall i :: 0 <= i < |a + b| ==> Ids(a + b)[i] == (Ids(a) + Ids(b))[i];
  }

  /** Some task of `work` closes the loop when it runs. */
  predicate HasClose(work: seq<Task>) {
    ClosesBefore(work, |work|)
  }

  /** One of the first `i` tasks of `work` closes the loop. */
  predicate ClosesBefore(work: seq<Task>, i: nat)
    requires i <= |work|
  {
    exists j :: 0 <= j < i && work[j].effect == CloseLoop
  }

  /** Some scheduled task in `s` closes the loop when it runs. */
  ghost predicate Closes(s: seq<Scheduled<Task>>) {
    exists e :: e in s && e.event.effect == CloseLoop
  }

  class EventLoop {
    /** `_queue`. */
    var queue: seq<Scheduled<Task>>
    /** `_closed`. */
    var closed: bool

    /** The queue is a heap on deadlines. */
    ghost predicate Valid()
      reads this`queue
    {
      IsHeap(queue)
    }

    constructor ()
      ensures Valid() && queue == [] && !closed
    {
      queue, closed := [], false;
    }

    /** `call_at`: a closed loop drops the event; otherwise the pair joins the heap. */
    method CallAt(deadline: TimePoint, task: Task)
      requires Valid()
      modifies this`queue
      ensures Valid()
      ensures closed ==> queue == old(queue)
      ensures !closed ==> multiset(queue) == multiset(old(queue)) + multiset{Scheduled(deadline, task)}
    {
      if closed {
        return;
      }
      queue := PushHeap(queue, Scheduled(deadline, task));
    }

    /** `close`: sets the flag and leaves the queue as it is. */
    method Close()
      modifies this`closed
      ensures closed
    {
      closed := true;
    }

    /** `pop_work_from_queue`. While the loop is open it takes clock readings one by one: with
        nothing due it waits for the next reading, otherwise it drains every due pair, earliest
        first. `work` is `None` when the readings ran out first; `used` is how many it took and
        `taken` the drained pairs. A closed loop yields empty work at once. */
    method PopWork(readings: seq<TimePoint>)
        returns (work: Option<seq<Task>>, used: nat, ghost taken: seq<Scheduled<Task>>)
      requires Valid()
      modifies this`queue
      ensures Valid()
      ensures Popped(old(queue), queue, readings, closed, work, used, taken)
    {
      used, taken := 0, [];
      while !closed
        invariant used <= |readings| && queue == old(queue) && (closed ==> used == 0)
        invariant forall k :: 0 <= k < used ==> NothingDue(queue, readings[k])
        decreases |readings| - used
      {
        if used == |readings| {
          PoppedNothing(queue, readings, closed);
          return None, used, [];
        }
        var now := readings[used];
        used := used + 1;
        if |queue| == 0 {
          continue;
        }
        if queue[0].deadline > now {
          FrontIsEarliest(queue);
          continue;
        }
        var batch, rest;
        ghost var q := queue;
        batch, rest, taken := DrainDue(queue, now);
        queue := rest;
        PoppedDue(q, rest, readings, used, batch, taken);
        return Some(batch), used, taken;
      }
      PoppedHalted(queue, readings);
      return Some([]), used, [];
    }

    /** `run_forever`: pops a batch, then repeatedly runs it and pops the next, until a pop
        yields empty work, which happens exactly when the loop is closed. `ran` lists the pairs
        whose tasks ran, in running order, and `at[i]` is how many readings had been made when
        `ran[i]` was taken off the queue; `used` readings were consumed. `finished` is false
        when the readings ran out while the loop was still waiting. */
    method RunForever(readings: seq<TimePoint>)
        returns (log: seq<nat>, finished: bool, ghost ran: seq<Scheduled<Task>>, ghost at: seq<nat>, used: nat)
      requires Valid()
      modifies this`queue, this`closed
      ensures Valid()
      ensures log == Ids(Events(ran))
      ensures multiset(ran) + multiset(queue) == multiset(old(queue))
      ensures Ascending(ran)
      ensures DueWhenRun(ran, at, readings, used)
      ensures forall k, e :: 0 <= k < used && e in queue ==> e.deadline > readings[k]
      ensures finished <==> closed
      ensures !finished ==> used == |readings|
      ensures closed <==> old(closed) || Closes(ran)
      ensures old(closed) ==> ran == []
    {
      ghost var q0, c0 := queue, closed;
      HistoryStart(q0, c0, readings);
      ran, at, log, used, finished := [], [], [], 0, false;
      var w: Option<seq<Task>>;
      w, ran, at, log, used := RunPass(q0, c0, ran, at, log, readings, used);
      if w.Some? {
        while true
          invariant Valid() && History(q0, c0, queue, closed, ran, at, log, readings, used)
          decreases |readings| - used
        {
          w, ran, at, log, used := RunPass(q0, c0, ran, at, log, readings, used);
          if w.None? {
            break;
          }
          if w.value == [] {
            finished := true;
            break;
          }
        }
      }
      Concluded(q0, c0, queue, closed, ran, at, log, readings, used);
    }

    /** One pop of `run_forever` followed by running the batch it yields. */
    method RunPass(ghost q0: seq<Scheduled<Task>>, ghost c0: bool, ghost ran: seq<Scheduled<Task>>, ghost at: seq<nat>,
                   log: seq<nat>, readings: seq<TimePoint>, used: nat)
        returns (w: Option<seq<Task>>, ghost ran': seq<Scheduled<Task>>, ghost at': seq<nat>, log': seq<nat>, used': nat)
      requires Valid() && History(q0, c0, queue, closed, ran, at, log, readings, used)
      modifies this`queue, this`closed
      ensures Valid() && History(q0, c0, queue, closed, ran', at', log', readings, used') && used <= used'
      ensures w.None? ==> used' == |readings| && !closed
      ensures w.Some? && w.value == [] ==> closed
      ensures w.Some? && w.value != [] ==> used < used'
    {
      ghost var q, cb := queue, closed;
      var n;
      ghost var taken;
      w, n, taken := PopWork(readings[used..]);
      ghost var q1 := queue;
      assert closed == cb;
      used' := used + n;
      var work := if w.Some? then w.value else [];
      var l := ProcessWork(work);
      assert queue == q1;
      log', ran', at' := log + l, ran + taken, at + Repeat(used + n, |taken|);
      Passed(q0, c0, q, q1, cb, closed, ran, at, log, l, w, work, n, taken, readings, used, ran', at', log', used');
    }

    /** `process_work`: runs the tasks of a batch in order. A task that closes the loop does not
        keep the rest of the batch from running. */
    method ProcessWork(work: seq<Task>) returns (log: seq<nat>)
      modifies this`closed
      ensures log == Ids(work)
      ensures closed <==> old(closed) || HasClose(work)
    {
      log := [];
      for i := 0 to |work|
        invariant |log| == i && forall j :: 0 <= j < i ==> log[j] == work[j].id
        invariant closed <==> old(closed) || ClosesBefore(work, i)
      {
        assert ClosesBefore(work, i + 1) <==> ClosesBefore(work, i) || work[i].effect == CloseLoop;
        log := log + [work[i].id];
        if work[i].effect == CloseLoop {
          Close();
        }
      }
    }
  }

  /** The bookkeeping of `run_forever` between batches, from a start where the queue was `q0`
      and the flag `c0`: the ledger of pairs and the record of what ran. */
  ghost predicate History(q0: seq<Scheduled<Task>>, c0: bool, q: seq<Scheduled<Task>>, closed: bool,
                          ran: seq<Scheduled<Task>>, at: seq<nat>, log: seq<nat>, readings: seq<TimePoint>, used: nat)
  {
    Ledger(q0, q, ran, readings, used) && Record(c0, closed, ran, at, log, readings, used)
  }

  /** Each pair that ran was due at the reading it was taken at; the log holds their ids; the
      loop is closed exactly when it started closed or a task closed it, and a loop that
      started closed ran nothing. */
  ghost predicate Record(c0: bool, closed: bool, ran: seq<Scheduled<Task>>, at: seq<nat>, log: seq<nat>,
                         readings: seq<TimePoint>, used: nat)
  {
    && DueWhenRun(ran, at, readings, used)
    && log == Ids(Events(ran))
    && (closed <==> c0 || Closes(ran))
    && (c0 ==> ran == [])
  }

  lemma HistoryStart(q0: seq<Scheduled<Task>>, c0: bool, readings: seq<TimePoint>)
    ensures History(q0, c0, q0, c0, [], [], [], readings, 0)
  {
    var none: seq<Scheduled<Task>> := [];
    assert multiset(none) + multiset(q0) == multiset(q0);
  }

  /** What `run_forever` promises, read off the bookkeeping at its end. */
  lemma Concluded(q0: seq<Scheduled<Task>>, c0: bool, q: seq<Scheduled<Task>>, closed: bool,
                  ran: seq<Scheduled<Task>>, at: seq<nat>, log: seq<nat>, readings: seq<TimePoint>, used: nat)
    requires History(q0, c0, q, closed, ran, at, log, readings, used)
    ensures multiset(ran) + multiset(q) == multiset(q0) && Ascending(ran)
    ensures forall k, e :: 0 <= k < used && e in q ==> e.deadline > readings[k]
    ensures log == Ids(Events(ran)) && DueWhenRun(ran, at, readings, used)
    ensures closed <==> c0 || Closes(ran)
    ensures c0 ==> ran == []
  { }

  /** A pop that yields no work leaves the bookkeeping as it was, apart from the readings it
      consumed while waiting. */
  lemma Idle(q0: seq<Scheduled<Task>>, c0: bool, q: seq<Scheduled<Task>>, q': seq<Scheduled<Task>>, closed: bool,
             ran: seq<Scheduled<Task>>, at: seq<nat>, log: seq<nat>, w: Option<seq<Task>>, n: nat,
             taken: seq<Scheduled<Task>>, readings: seq<TimePoint>, used: nat)
    requires History(q0, c0, q, closed, ran, at, log, readings, used)
    requires used <= |readings| && Popped(q, q', readings[used..], closed, w, n, taken)
    requires w.None? || w.value == []
    ensures History(q0, c0, q', closed, ran, at, log, readings, used + n)
    ensures w.None? ==> used + n == |readings| && !closed
    ensures w.Some? ==> closed
  {
    var later := readings[used..];
    forall k, e | 0 <= k < used + n && e in q' ensures e.deadline > readings[k] {
      if k >= used {
        assert later[k - used] == readings[k];
      }
    }
  }

  /** One pass of `run_forever`: a pop from the queue `q` with the flag `cb`, leaving `q'`,
      followed by running the batch with log `l` when it is not empty, leaving the flag
      `closed`. */
  lemma Passed(q0: seq<Scheduled<Task>>, c0: bool, q: seq<Scheduled<Task>>, q': seq<Scheduled<Task>>, cb: bool,
               closed: bool, ran: seq<Scheduled<Task>>, at: seq<nat>, log: seq<nat>, l: seq<nat>,
               w: Option<seq<Task>>, work: seq<Task>, n: nat, taken: seq<Scheduled<Task>>, readings: seq<TimePoint>, used: nat,
               ran': seq<Scheduled<Task>>, at': seq<nat>, log': seq<nat>, used': nat)
    requires History(q0, c0, q, cb, ran, at, log, readings, used)
    requires used <= |readings| && Popped(q, q', readings[used..], cb, w, n, taken)
    requires work == if w.Some? then w.value else []
    requires l == Ids(work) && (closed <==> cb || HasClose(work))
    requires ran' == ran + taken && at' == at + Repeat(used + n, |taken|) && log' == log + l && used' == used + n
    ensures History(q0, c0, q', closed, ran', at', log', readings, used')
    ensures w.None? ==> used' == |readings| && !closed
    ensures w.Some? && w.value == [] ==> closed
    ensures w.Some? && w.value != [] ==> used < used'
  {
    if w.Some? && w.value != [] {
      PassedBatch(q0, c0, q, q', cb, closed, ran, at, log, l, w, work, n, taken, readings, used, ran', at', log', used');
    } else {
      PassedIdle(q0, c0, q, q', cb, closed, ran, at, log, l, w, work, n, taken, readings, used, ran', at', log', used');
    }
  }

  /** A pass whose pop yields a batch. */
  lemma PassedBatch(q0: seq<Scheduled<Task>>, c0: bool, q: seq<Scheduled<Task>>, q': seq<Scheduled<Task>>, cb: bool,
                    closed: bool, ran: seq<Scheduled<Task>>, at: seq<nat>, log: seq<nat>, l: seq<nat>,
                    w: Option<seq<Task>>, work: seq<Task>, n: nat, taken: seq<Scheduled<Task>>, readings: seq<TimePoint>, used: nat,
                    ran': seq<Scheduled<Task>>, at': seq<nat>, log': seq<nat>, used': nat)
    requires History(q0, c0, q, cb, ran, at, log, readings, used)
    requires used <= |readings| && Popped(q, q', readings[used..], cb, w, n, taken)
    requires work == if w.Some? then w.value else []
    requires l == Ids(work) && (closed <==> cb || HasClose(work))
    requires ran' == ran + taken && at' == at + Repeat(used + n, |taken|) && log' == log + l && used' == used + n
    requires w.Some? && w.value != []
    ensures History(q0, c0, q', closed, ran', at', log', readings, used')
    ensures used < used'
  {
    PoppedBatch(q, q', readings[used..], cb, closed, l, w, n, taken);
    LedgerBatch(q0, q, q', ran, taken, readings, used, n);
    RecordBatch(q, q', w, c0, closed, ran, at, log, l, taken, readings, used, n);
  }

  /** A pass whose pop yields no work: nothing runs. */
  lemma PassedIdle(q0: seq<Scheduled<Task>>, c0: bool, q: seq<Scheduled<Task>>, q': seq<Scheduled<Task>>, cb: bool,
                   closed: bool, ran: seq<Scheduled<Task>>, at: seq<nat>, log: seq<nat>, l: seq<nat>,
                   w: Option<seq<Task>>, work: seq<Task>, n: nat, taken: seq<Scheduled<Task>>, readings: seq<TimePoint>, used: nat,
                   ran': seq<Scheduled<Task>>, at': seq<nat>, log': seq<nat>, used': nat)
    requires History(q0, c0, q, cb, ran, at, log, readings, used)
    requires used <= |readings| && Popped(q, q', readings[used..], cb, w, n, taken)
    requires work == if w.Some? then w.value else []
    requires l == Ids(work) && (closed <==> cb || HasClose(work))
    requires ran' == ran + taken && at' == at + Repeat(used + n, |taken|) && log' == log + l && used' == used + n
    requires w.None? || w.value == []
    ensures History(q0, c0, q', closed, ran', at', log', readings, used')
    ensures w.None? ==> used' == |readings| && !closed
    ensures w.Some? ==> closed
  {
    PoppedNothingTaken(q, q', readings[used..], cb, w, n, taken);
    EmptyBatch(cb, closed, ran, at, log, l, work, taken, used + n, ran', at', log');
    Idle(q0, c0, q, q', cb, ran, at, log, w, n, taken, readings, used);
    HistoryRenamed(q0, c0, q', cb, closed, ran, ran', at, at', log, log', readings, used + n, used');
  }

  /** `History` holds of equal arguments. */
  lemma HistoryRenamed(q0: seq<Scheduled<Task>>, c0: bool, q: seq<Scheduled<Task>>, closed: bool, closed': bool,
                       ran: seq<Scheduled<Task>>, ran': seq<Scheduled<Task>>, at: seq<nat>, at': seq<nat>,
                       log: seq<nat>, log': seq<nat>, readings: seq<TimePoint>, used: nat, used': nat)
    requires History(q0, c0, q, closed, ran, at, log, readings, used)
    requires closed' == closed && ran' == ran && at' == at && log' == log && used' == used
    ensures History(q0, c0, q, closed', ran', at', log', readings, used')
  { }

  /** Running an empty batch changes neither what ran, nor the log, nor the flag. */
  lemma EmptyBatch(cb: bool, closed: bool, ran: seq<Scheduled<Task>>, at: seq<nat>, log: seq<nat>, l: seq<nat>,
                   work: seq<Task>, taken: seq<Scheduled<Task>>, used: nat,
                   ran': seq<Scheduled<Task>>, at': seq<nat>, log': seq<nat>)
    requires taken == [] && work == [] && l == Ids(work) && (closed <==> cb || HasClose(work))
    requires ran' == ran + taken && at' == at + Repeat(used, |taken|) && log' == log + l
    ensures ran' == ran && at' == at && log' == log && closed == cb
  {
    assert ran + [] == ran && at + [] == at && log + [] == log;
  }

  /** A pop that yields a batch, followed by running it: `cb` is the flag when popping, `closed`
      after running; the batch was popped from an open loop, after at least one reading, and
      closes the loop exactly when one of its tasks closes it. */
  lemma PoppedBatch(q: seq<Scheduled<Task>>, q': seq<Scheduled<Task>>, later: seq<TimePoint>, cb: bool, closed: bool,
                    l: seq<nat>, w: Option<seq<Task>>, n: nat, taken: seq<Scheduled<Task>>)
    requires Popped(q, q', later, cb, w, n, taken)
    requires w.Some? && w.value != []
    requires l == Ids(w.value)
    requires closed <==> cb || HasClose(w.value)
    ensures !cb && 0 < n <= |later| && l == Ids(Events(taken)) && (closed <==> Closes(taken))
    ensures forall e :: e in taken ==> e.deadline <= later[n - 1]
  {
    ClosesEvents(taken);
  }

  /** Running a batch popped from the queue `q` at reading `used + n - 1` from an open loop
      records it as taken at that reading. */
  lemma RecordBatch(q: seq<Scheduled<Task>>, q': seq<Scheduled<Task>>, w: Option<seq<Task>>, c0: bool, closed: bool,
                    ran: seq<Scheduled<Task>>, at: seq<nat>, log: seq<nat>, l: seq<nat>,
                    taken: seq<Scheduled<Task>>, readings: seq<TimePoint>, used: nat, n: nat)
    requires Record(c0, false, ran, at, log, readings, used)
    requires 0 < n && used + n <= |readings|
    requires forall e :: e in taken ==> e.deadline <= readings[used..][n - 1]
    requires Popped(q, q', readings[used..], false, w, n, taken) && w.Some?
    requires forall k, e :: 0 <= k < used && e in q ==> e.deadline > readings[k]
    requires l == Ids(Events(taken)) && (closed <==> Closes(taken))
    ensures Record(c0, closed, ran + taken, at + Repeat(used + n, |taken|), log + l, readings, used + n)
  {
    assert readings[used..][n - 1] == readings[used + n - 1];
    NotDueBefore(q, q', readings, used, w, n, taken);
    DueJoin(ran, at, taken, readings, used, n);
    LogJoin(ran, taken, log, l);
    ClosesConcat(ran, taken);
  }

  /** Running a batch extends the log by the batch's ids. */
  lemma LogJoin(ran: seq<Scheduled<Task>>, taken: seq<Scheduled<Task>>, log: seq<nat>, l: seq<nat>)
    requires log == Ids(Events(ran)) && l == Ids(Events(taken))
    ensures log + l == Ids(Events(ran + taken))
  {
    EventsConcat(ran, taken);
    IdsConcat(Events(ran), Events(taken));
  }

  lemma ClosesEvents(taken: seq<Scheduled<Task>>)
    ensures HasClose(Events(taken)) <==> Closes(taken)
  {
    if Closes(taken) {
      var e :| e in taken && e.event.effect == CloseLoop;
      var i :| 0 <= i < |taken| && taken[i] == e;
      assert Events(taken)[i].effect == CloseLoop;
    }
  }

  lemma ClosesConcat(a: seq<Scheduled<Task>>, b: seq<Scheduled<Task>>)
    ensures Closes(a + b) <==> Closes(a) || Closes(b)
  {
    if Closes(a + b) {
      var e :| e in a + b && e.event.effect == CloseLoop;
      assert e in a || e in b;
    }
    if Closes(a) {
      var e :| e in a && e.event.effect == CloseLoop;
      assert e in a + b;
    }
    if Closes(b) {
      var e :| e in b && e.event.effect == CloseLoop;
      assert e in a + b;
    }
  }

  /** `can_insert_to_event_loop`: one `call_at` on a new loop leaves one pair queued. */
  method InsertQueues(t: TimePoint) returns (size: nat)
    ensures size == 1
  {
    var loop := new EventLoop();
    loop.CallAt(t, Task(0, Nothing));
    assert |multiset(loop.queue)| == 1;
    size := |loop.queue|;
  }

  /** `most_recent_event_gets_heap_sorted_to_top_element`: after `call_at` at `t + 1s`, `t` and
      `t + 2s` on a new loop, the front of the queue is the pair due at `t`. */
  method EarliestOnTop(t: TimePoint) returns (front: TimePoint)
    ensures front == t
  {
    var e2, e1, e3 := Scheduled(t + Second, Task(2, Nothing)), Scheduled(t, Task(1, Nothing)),
                      Scheduled(t + 2 * Second, Task(3, Nothing));
    var loop := QueuedThree(e2, e1, e3);
    front := FrontOfThree(loop.queue, e2, e1, e3);
  }

  /** A new loop after `call_at` for `a`, `b` and `c`, in that order. */
  method QueuedThree(a: Scheduled<Task>, b: Scheduled<Task>, c: Scheduled<Task>) returns (loop: EventLoop)
    ensures fresh(loop) && loop.Valid() && !loop.closed
    ensures multiset(loop.queue) == multiset{a, b, c}
  {
    loop := new EventLoop();
    loop.CallAt(a.deadline, a.event);
    loop.CallAt(b.deadline, b.event);
    loop.CallAt(c.deadline, c.event);
  }

  /** The front of a heap holding exactly the three pairs `a`, `b` and `c` is the earliest
      deadline among them. */
  method FrontOfThree(q: seq<Scheduled<Task>>, a: Scheduled<Task>, b: Scheduled<Task>, c: Scheduled<Task>)
      returns (front: TimePoint)
    requires IsHeap(q) && multiset(q) == multiset{a, b, c}
    ensures front in {a.deadline, b.deadline, c.deadline}
    ensures front <= a.deadline && front <= b.deadline && front <= c.deadline
  {
    assert a in multiset(q) && b in multiset(q) && c in multiset(q);
    FrontIsEarliest(q);
    assert q[0] in multiset(q);
    front := q[0].deadline;
  }

  /** `work_gets_processed_in_order`: three past-due pairs, due at `t - 1s` (task 2), `t` (task
      1, which closes the loop) and `t - 2s` (task 3), are queued on a new loop; the front is
      the one due at `t - 2s`. Once the clock reads `t` or later, `run_forever` runs them in
      the order 3, 2, 1, and finishes because task 1 closed the loop. */
  method ProcessedInOrder(t: TimePoint, readings: seq<TimePoint>) returns (front: TimePoint, log: seq<nat>, finished: bool)
    requires |readings| > 0 && readings[0] >= t
    ensures front == t - 2 * Second
    ensures log == [3, 2, 1] && finished
  {
    var e2, e1, e3 := Scheduled(t - Second, Task(2, Nothing)), Scheduled(t, Task(1, CloseLoop)),
                      Scheduled(t - 2 * Second, Task(3, Nothing));
    var loop := QueuedThree(e2, e1, e3);
    front := FrontOfThree(loop.queue, e2, e1, e3);
    ghost var q0 := loop.queue;
    ghost var ran, at;
    var used;
    log, finished, ran, at, used := loop.RunForever(readings);
    InOrderRun(q0, loop.queue, ran, at, log, readings, used, loop.closed, finished, e3, e2, e1);
  }

  /** The run of `work_gets_processed_in_order`, read off what `run_forever` promises: the
      pairs `a`, `b` and `c`, due in that order by the first reading, with `c` closing the
      loop, all run, in that order. */
  lemma InOrderRun(q0: seq<Scheduled<Task>>, q: seq<Scheduled<Task>>, ran: seq<Scheduled<Task>>, at: seq<nat>,
                   log: seq<nat>, readings: seq<TimePoint>, used: nat, closed: bool, finished: bool,
                   a: Scheduled<Task>, b: Scheduled<Task>, c: Scheduled<Task>)
    requires multiset(q0) == multiset{a, b, c} && |readings| > 0
    requires a.deadline < b.deadline < c.deadline <= readings[0]
    requires a.event == Task(3, Nothing) && b.event == Task(2, Nothing) && c.event == Task(1, CloseLoop)
    requires log == Ids(Events(ran)) && multiset(ran) + multiset(q) == multiset(q0) && Ascending(ran)
    requires DueWhenRun(ran, at, readings, used)
    requires forall k, e :: 0 <= k < used && e in q ==> e.deadline > readings[k]
    requires (finished <==> closed) && (!finished ==> used == |readings|) && (closed <==> Closes(ran))
    ensures log == [3, 2, 1] && finished
  {
    SomeReadingUsed(ran, at, readings, used);
    InThree(q0, a, b, c);
    NoneLeft(q0, q, ran, readings, used);
    assert multiset([a, b, c]) == multiset{a, b, c};
    ThreeAscending(a, b, c);
    AscendingDistinctUnique([a, b, c], ran);
    IdsOfThree(a, b, c);
    assert c in ran;
  }

  /** Three pairs with increasing deadlines, listed in that order. */
  lemma ThreeAscending(a: Scheduled<Task>, b: Scheduled<Task>, c: Scheduled<Task>)
    requires a.deadline < b.deadline < c.deadline
    ensures Ascending([a, b, c]) && DistinctDeadlines([a, b, c])
  { }

  lemma IdsOfThree(a: Scheduled<Task>, b: Scheduled<Task>, c: Scheduled<Task>)
    ensures Ids(Events([a, b, c])) == [a.event.id, b.event.id, c.event.id]
  {
    assert Events([a, b, c]) == [a.event, b.event, c.event];
  }

  /** A run from an open loop that ran nothing waited through every reading, so it made at
      least one when there was one to make. */
  lemma SomeReadingUsed(ran: seq<Scheduled<Task>>, at: seq<nat>, readings: seq<TimePoint>, used: nat)
    requires DueWhenRun(ran, at, readings, used) && (!Closes(ran) ==> used == |readings|)
    requires |readings| > 0
    ensures used > 0
  {
    if ran != [] {
      assert 0 < at[0] <= used;
    } else {
      assert !Closes(ran);
    }
  }

  /** When everything of `q0` was due at the first reading and nothing left in `q` was due at
      any reading used, nothing is left. */
  lemma NoneLeft(q0: seq<Scheduled<Task>>, q: seq<Scheduled<Task>>, ran: seq<Scheduled<Task>>,
                 readings: seq<TimePoint>, used: nat)
    requires multiset(ran) + multiset(q) == multiset(q0)
    requires 0 < used <= |readings| && forall e :: e in q0 ==> e.deadline <= readings[0]
    requires forall k, e :: 0 <= k < used && e in q ==> e.deadline > readings[k]
    ensures q == [] && multiset(ran) == multiset(q0)
  {
    forall x ensures multiset(q)[x] == 0 {
      assert multiset(q)[x] > 0 ==> x in multiset(q) && x in q && x in multiset(q0) && x in q0;
    }
    assert multiset(q) == multiset{};
  }

  /** The pairs of a queue holding exactly `a`, `b` and `c`. */
  lemma InThree(q: seq<Scheduled<Task>>, a: Scheduled<Task>, b: Scheduled<Task>, c: Scheduled<Task>)
    requires multiset(q) == multiset{a, b, c}
    ensures forall e :: e in q ==> e == a || e == b || e == c
  {
    forall e | e in q ensures e == a || e == b || e == c {
      assert e in multiset(q);
    }
  }

  /** `work_gets_processed_in_time_approx`: a pair due at `t + 2ms` (task 2, which closes the
      loop) and one due at `t` (task 1) are queued on a new loop. Given a clock that reaches
      `t + 2ms` at some reading, `run_forever` runs task 1 and then task 2, finishes with an
      empty queue, and task 2 ran only after the clock had read `t + 2ms` or later. */
  method ProcessedInTime(t: TimePoint, readings: seq<TimePoint>) returns (log: seq<nat>, finished: bool, left: nat, used: nat)
    requires exists k :: 0 <= k < |readings| && readings[k] >= t + 2 * Millisecond
    ensures log == [1, 2] && finished && left == 0
    ensures used <= |readings| && exists k :: 0 <= k < used && readings[k] >= t + 2 * Millisecond
  {
    var loop := new EventLoop();
    var e2, e1 := Scheduled(t + 2 * Millisecond, Task(2, CloseLoop)), Scheduled(t, Task(1, Nothing));
    loop.CallAt(e2.deadline, e2.event);
    loop.CallAt(e1.deadline, e1.event);
    ghost var q0 := loop.queue;
    ghost var ran, at;
    log, finished, ran, at, used := loop.RunForever(readings);
    InTimeRun(q0, loop.queue, ran, at, log, readings, used, loop.closed, finished, e1, e2);
    left := |loop.queue|;
  }

  /** The run of `work_gets_processed_in_time_approx`, read off what `run_forever` promises:
      `a` is due before `b`, `b` closes the loop, and some reading reaches `b`'s deadline. */
  lemma InTimeRun(q0: seq<Scheduled<Task>>, q: seq<Scheduled<Task>>, ran: seq<Scheduled<Task>>, at: seq<nat>,
                  log: seq<nat>, readings: seq<TimePoint>, used: nat, closed: bool, finished: bool,
                  a: Scheduled<Task>, b: Scheduled<Task>)
    requires multiset(q0) == multiset{b, a} && a.deadline < b.deadline
    requires a.event == Task(1, Nothing) && b.event == Task(2, CloseLoop)
    requires exists k :: 0 <= k < |readings| && readings[k] >= b.deadline
    requires log == Ids(Events(ran)) && multiset(ran) + multiset(q) == multiset(q0) && Ascending(ran)
    requires DueWhenRun(ran, at, readings, used)
    requires forall k, e :: 0 <= k < used && e in q ==> e.deadline > readings[k]
    requires (finished <==> closed) && (!finished ==> used == |readings|) && (closed <==> Closes(ran))
    ensures log == [1, 2] && finished && q == []
    ensures exists k :: 0 <= k < used && readings[k] >= b.deadline
  {
    CloserRuns(q0, q, ran, readings, used, a, b);
    EarlierRuns(q0, q, ran, at, readings, used, a, b);
    BothRan(q0, q, ran, a, b);
    assert Ids(Events([a, b])) == [1, 2] by {
      assert Events([a, b]) == [a.event, b.event];
    }
    assert 0 < at[1] <= used && readings[at[1] - 1] >= b.deadline;
  }

  /** When both pairs of a queue of two ran, earliest first, they ran in deadline order and
      nothing is left. */
  lemma BothRan(q0: seq<Scheduled<Task>>, q: seq<Scheduled<Task>>, ran: seq<Scheduled<Task>>,
                a: Scheduled<Task>, b: Scheduled<Task>)
    requires multiset(q0) == multiset{b, a} && a.deadline < b.deadline
    requires multiset(ran) + multiset(q) == multiset(q0) && Ascending(ran)
    requires a in ran && b in ran
    ensures ran == [a, b] && q == []
  {
    assert multiset(ran) == multiset{a, b} == multiset([a, b]);
    assert multiset(q) == multiset{};
    assert Ascending([a, b]) && DistinctDeadlines([a, b]);
    AscendingDistinctUnique([a, b], ran);
  }

  /** Of the two pairs `a` and `b`, `b` closes the loop and `a` does not: once some reading
      reaches `b`'s deadline, `b` runs. */
  lemma CloserRuns(q0: seq<Scheduled<Task>>, q: seq<Scheduled<Task>>, ran: seq<Scheduled<Task>>,
                   readings: seq<TimePoint>, used: nat, a: Scheduled<Task>, b: Scheduled<Task>)
    requires multiset(q0) == multiset{b, a} && a.event.effect == Nothing && b.event.effect == CloseLoop
    requires multiset(ran) + multiset(q) == multiset(q0)
    requires exists k :: 0 <= k < |readings| && readings[k] >= b.deadline
    requires used <= |readings| && forall k, e :: 0 <= k < used && e in q ==> e.deadline > readings[k]
    requires !Closes(ran) ==> used == |readings|
    ensures b in ran
  {
    var k0 :| 0 <= k0 < |readings| && readings[k0] >= b.deadline;
    assert b in multiset(ran) + multiset(q);
    assert Closes(ran) ==> b in ran by {
      if Closes(ran) {
        var e :| e in ran && e.event.effect == CloseLoop;
        assert e in multiset(q0);
      }
    }
  }

  /** A pair due before one that ran has run too. */
  lemma EarlierRuns(q0: seq<Scheduled<Task>>, q: seq<Scheduled<Task>>, ran: seq<Scheduled<Task>>, at: seq<nat>,
                    readings: seq<TimePoint>, used: nat, a: Scheduled<Task>, b: Scheduled<Task>)
    requires a in multiset(q0) && b in ran && a.deadline <= b.deadline
    requires multiset(ran) + multiset(q) == multiset(q0) && DueWhenRun(ran, at, readings, used)
    requires forall k, e :: 0 <= k < used && e in q ==> e.deadline > readings[k]
    ensures a in ran
  {
    var j :| 0 <= j < |ran| && ran[j] == b;
    assert 0 < at[j] <= used && readings[at[j] - 1] >= b.deadline;
    assert a in multiset(ran) + multiset(q);
  }
}
