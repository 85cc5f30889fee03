/*
 * The event reactor of src/app-event.c as a class: the module's static state
 * (ID counter, I/O records with their parallel pfd array, timer records) are
 * the fields, and each public or static function is a method proved against
 * the specification functions of EventSpec.
 *
 * Callbacks are not code here: a callback's effect on the reactor is the list
 * of registrations and unregistrations it performs, given by a `behaviour`
 * function from the firing to that list. The clock and poll(2) are parameters.
 */
module Event {
  import opened Common
  import opened EventSpec
  import opened EventTables
  import opened EventPass

  /** One answer of the kernel to poll(): interrupted by a signal, failed, or the ready conditions per descriptor. */
  datatype KernelAnswer =
    | Interrupted
    | Failed
    | Ready(condition: int -> bv16)

  /** One round of the retry loop: the clock reading it computes the timeout from, and how poll() returned. */
  datatype Attempt = Attempt(clock: int, answer: KernelAnswer)

  /** The number of leading attempts that were interrupted by a signal: the round after them is the one that counts. */
  function FirstAnswer(attempts: seq<Attempt>): (n: nat)
    ensures n <= |attempts|
    ensures forall k :: 0 <= k < n ==> attempts[k].answer.Interrupted?
    ensures n < |attempts| ==> !attempts[n].answer.Interrupted?
  {
    if attempts == [] || !attempts[0].answer.Interrupted? then 0 else 1 + FirstAnswer(attempts[1..])
  }

  /** app_heap_realloc to twice the capacity: the first `a.Length` elements are kept. */
  method Grow<T>(a: array<T>, fill: T) returns (b: array<T>)
    ensures fresh(b)
    ensures b.Length == 2 * a.Length
    ensures b[..a.Length] == a[..]
  {
    b := new T[2 * a.Length](_ => fill);
    var i := 0;
    while i < a.Length
      invariant 0 <= i <= a.Length
      invariant b[..i] == a[..i]
    {
      b[i] := a[i];
      i := i + 1;
    }
  }

  /**
   * The loop of gc_io over the first `n` records and pfds: a record with ID 0
   * is overwritten, with its pfd, by the last one and the count drops.
   */
  method CollectIo(records: array<IoRecord>, pfds: array<PollFd>, n: nat) returns (m: nat)
    requires n <= records.Length == pfds.Length
    modifies records, pfds
    ensures var o := GcOrder(IoIds(old(records[..n])));
      && m <= n && Below(o, n) && m == |o|
      && records[..m] == Select(old(records[..n]), o)
      && pfds[..m] == Select(old(pfds[..n]), o)
  {
    ghost var recs0, pfds0 := records[..n], pfds[..n];
    ghost var ids := IoIds(recs0);
    ghost var idx := Range(n);
    m := n;
    var i: nat := 0;
    assert records[..m] == Select(recs0, idx) && pfds[..m] == Select(pfds0, idx);
    while i < m
      invariant i <= m == |idx| <= n
      invariant Below(idx, n)
      invariant records[..m] == Select(recs0, idx) && pfds[..m] == Select(pfds0, idx)
      invariant SwapRemove(ids, idx, i) == GcOrder(ids)
      decreases 2 * m - i
    {
      m, i, idx := CollectIoTurn(records, pfds, m, i, recs0, pfds0, idx);
    }
  }

  /** One turn of the gc_io loop at position i, with `idx` the original positions of the first m records. */
  method CollectIoTurn(records: array<IoRecord>, pfds: array<PollFd>, m: nat, i: nat,
                       ghost recs0: seq<IoRecord>, ghost pfds0: seq<PollFd>, ghost idx: seq<nat>)
    returns (m': nat, i': nat, ghost idx': seq<nat>)
    requires i < m == |idx| <= records.Length == pfds.Length && |recs0| == |pfds0|
    requires Below(idx, |recs0|)
    requires records[..m] == Select(recs0, idx) && pfds[..m] == Select(pfds0, idx)
    modifies records, pfds
    ensures i' <= m' <= m && m' == |idx'| && Below(idx', |recs0|)
    ensures records[..m'] == Select(recs0, idx') && pfds[..m'] == Select(pfds0, idx')
    ensures SwapRemove(IoIds(recs0), idx, i) == SwapRemove(IoIds(recs0), idx', i')
    ensures 2 * m' - i' < 2 * m - i
  {
    assert records[..m][i] == recs0[idx[i]];
    if records[i].id == 0 {
      m' := m - 1;
      MoveIo(records, pfds, m', i);
      SelectSwapOut(recs0, idx, i);
      SelectSwapOut(pfds0, idx, i);
      i', idx' := i, SwapOut(idx, i);
    } else {
      m', i', idx' := m, i + 1, idx;
    }
  }

  /** The record and pfd at position `from` overwrite those at `to`; the first `from` stay as they were otherwise. */
  method MoveIo(records: array<IoRecord>, pfds: array<PollFd>, from: nat, to: nat)
    requires to <= from < records.Length == pfds.Length
    modifies records, pfds
    ensures records[..from] == old(records[..from + 1])[to := old(records[from])][..from]
    ensures pfds[..from] == old(pfds[..from + 1])[to := old(pfds[from])][..from]
  {
    records[to] := records[from];
    pfds[to] := pfds[from];
  }

  /** The loop of gc_timers over the first `n` timers. */
  method CollectTimers(timers: array<TimerRecord>, n: nat) returns (m: nat)
    requires n <= timers.Length
    modifies timers
    ensures var o := GcOrder(TimerIds(old(timers[..n])));
      && m <= n && Below(o, n) && m == |o|
      && timers[..m] == Select(old(timers[..n]), o)
  {
    ghost var timers0 := timers[..n];
    ghost var ids := TimerIds(timers0);
    ghost var idx := Range(n);
    m := n;
    var i: nat := 0;
    assert timers[..m] == Select(timers0, idx);
    while i < m
      invariant i <= m == |idx| <= n
      invariant Below(idx, n)
      invariant timers[..m] == Select(timers0, idx)
      invariant SwapRemove(ids, idx, i) == GcOrder(ids)
      decreases 2 * m - i
    {
      m, i, idx := CollectTimersTurn(timers, m, i, timers0, idx);
    }
  }

  /** One turn of the gc_timers loop at position i, with `idx` the original positions of the first m timers. */
  method CollectTimersTurn(timers: array<TimerRecord>, m: nat, i: nat, ghost timers0: seq<TimerRecord>, ghost idx: seq<nat>)
    returns (m': nat, i': nat, ghost idx': seq<nat>)
    requires i < m == |idx| <= timers.Length
    requires Below(idx, |timers0|)
    requires timers[..m] == Select(timers0, idx)
    modifies timers
    ensures i' <= m' <= m && m' == |idx'| && Below(idx', |timers0|)
    ensures timers[..m'] == Select(timers0, idx')
    ensures SwapRemove(TimerIds(timers0), idx, i) == SwapRemove(TimerIds(timers0), idx', i')
    ensures 2 * m' - i' < 2 * m - i
  {
    assert timers[..m][i] == timers0[idx[i]];
    if timers[i].id == 0 {
      m' := m - 1;
      MoveTimer(timers, m', i);
      SelectSwapOut(timers0, idx, i);
      i', idx' := i, SwapOut(idx, i);
    } else {
      m', i', idx' := m, i + 1, idx;
    }
  }

  /** The timer at position `from` overwrites the one at `to`; the first `from` stay as they were otherwise. */
  method MoveTimer(timers: array<TimerRecord>, from: nat, to: nat)
    requires to <= from < timers.Length
    modifies timers
    ensures timers[..from] == old(timers[..from + 1])[to := old(timers[from])][..from]
  {
    timers[to] := timers[from];
  }

  /** What the I/O pass still computes at turn `i`, after the callbacks `before`; past `n0` nothing remains to fire. */
  ghost function IoRest(before: seq<Firing>, t: Tables, i: nat, n0: nat, behaviour: Firing -> seq<Action>): Step
    requires QuietFrom(t, n0)
  {
    if i <= n0 then Then(before, IoPass(t, i, n0, behaviour)) else Step(t, before, Completed)
  }

  class Reactor {
    var idCounter: nat
    var ioRecords: array<IoRecord>
    var ioPfds: array<PollFd>
    var ioCount: nat
    var timerRecords: array<TimerRecord>
    var timerCount: nat
    ghost var Repr: set<object>

    ghost predicate Valid()
      reads this, Repr
    {
      && Repr == {this, ioRecords, ioPfds, timerRecords}
      && ioRecords.Length == ioPfds.Length > 0
      && timerRecords.Length > 0
      && ioCount <= ioRecords.Length
      && timerCount <= timerRecords.Length
    }

    /** The live contents of the tables. */
    ghost function Snapshot(): Tables
      reads this, ioRecords, ioPfds, timerRecords
      requires ioCount <= ioRecords.Length == ioPfds.Length && timerCount <= timerRecords.Length
    {
      Tables(ioRecords[..ioCount], ioPfds[..ioCount], timerRecords[..timerCount], idCounter)
    }

    /** app_event_init: empty tables with room for 16 records each. */
    constructor Init()
      ensures Valid() && fresh(Repr)
      ensures Snapshot() == Tables([], [], [], 0)
      ensures ioRecords.Length == 16 && timerRecords.Length == 16
    {
      idCounter := 0;
      ioRecords := new IoRecord[16](_ => IoRecord(0, Handler(""), null));
      ioPfds := new PollFd[16](_ => PollFd(-1, 0, 0));
      ioCount := 0;
      timerRecords := new TimerRecord[16](_ => TimerRecord(0, Handler(""), null, 0));
      timerCount := 0;
      new;
      Repr := {this, ioRecords, ioPfds, timerRecords};
    }

    /** The growth step of app_event_register_io: a full I/O table doubles both arrays, keeping the contents. */
    method ReserveIo()
      requires Valid()
      modifies this
      ensures Valid() && fresh(Repr - old(Repr))
      ensures Snapshot() == old(Snapshot())
      ensures ioCount < ioRecords.Length
      ensures ioRecords.Length == if old(ioCount) == old(ioRecords.Length) then 2 * old(ioRecords.Length) else old(ioRecords.Length)
    {
      if ioCount == ioRecords.Length {
        ghost var t0 := Snapshot();
        var records := Grow(ioRecords, ioRecords[0]);
        var pfds := Grow(ioPfds, ioPfds[0]);
        assert records[..ioCount] == t0.io && pfds[..ioCount] == t0.pfds;
        ioRecords, ioPfds := records, pfds;
        Repr := {this, ioRecords, ioPfds, timerRecords};
        assert Snapshot() == t0;
      }
    }

    /**
     * app_event_register_io: appends a record and its pfd (revents 0), doubling
     * both arrays when full, and returns the next ID, which no record held before.
     */
    method RegisterIo(fd: int, events: bv16, callback: Handler, userData: object?) returns (id: nat)
      requires Valid()
      requires fd >= 0 && events != 0
      modifies Repr
      ensures Valid() && fresh(Repr - old(Repr))
      ensures id == old(idCounter) + 1
      ensures Snapshot() == Apply(old(Snapshot()), AddIo(fd, events, callback, userData))
      ensures ioRecords.Length == if old(ioCount) == old(ioRecords.Length) then 2 * old(ioRecords.Length) else old(ioRecords.Length)
    {
      ghost var t0 := Snapshot();
      ghost var t1 := Apply(t0, AddIo(fd, events, callback, userData));
      ReserveIo();
      idCounter := idCounter + 1;
      id := idCounter;
      ioRecords[ioCount] := IoRecord(id, callback, userData);
      ioPfds[ioCount] := PollFd(fd, events, 0);
      ioCount := ioCount + 1;
      assert ioRecords[..ioCount] == t1.io;
      assert ioPfds[..ioCount] == t1.pfds;
      assert Snapshot() == t1;
    }

    /** app_event_unregister_io: the first record with this ID gets ID 0 (it is collected by the next poll). */
    method UnregisterIo(id: nat)
      requires Valid()
      modifies ioRecords
      ensures Valid()
      ensures Snapshot() == Apply(old(Snapshot()), DropIo(id))
    {
      ghost var t0 := Snapshot();
      ghost var t1 := Apply(t0, DropIo(id));
      var i := 0;
      while i < ioCount
        invariant 0 <= i <= ioCount
        invariant ioRecords[..ioCount] == t0.io
        invariant forall k :: 0 <= k < i ==> t0.io[k].id != id
      {
        if ioRecords[i].id == id {
          ioRecords[i] := ioRecords[i].(id := 0);
          ZeroFirstAt(t0.io, id, i);
          assert ioRecords[..ioCount] == t1.io;
          break;
        }
        i := i + 1;
      }
      if i == ioCount {
        UnknownIdIsNoOp(t0.io, id);
      }
      assert Snapshot() == t1;
    }

    /** app_event_register_timer: appends a timer due `period` ms after the clock reading `now`. */
    method RegisterTimer(period: int, now: int, callback: Handler, userData: object?) returns (id: nat)
      requires Valid()
      requires period >= 0
      modifies Repr
      ensures Valid() && fresh(Repr - old(Repr))
      ensures id == old(idCounter) + 1
      ensures Snapshot() == Apply(old(Snapshot()), AddTimer(period, callback, userData, now))
      ensures timerRecords.Length == if old(timerCount) == old(timerRecords.Length) then 2 * old(timerRecords.Length) else old(timerRecords.Length)
    {
      ghost var t0 := Snapshot();
      if timerCount == timerRecords.Length {
        timerRecords := Grow(timerRecords, timerRecords[0]);
        Repr := {this, ioRecords, ioPfds, timerRecords};
      }
      idCounter := idCounter + 1;
      id := idCounter;
      timerRecords[timerCount] := TimerRecord(id, callback, userData, now + period);
      timerCount := timerCount + 1;
      assert timerRecords[..timerCount] == t0.timers + [TimerRecord(id, callback, userData, now + period)];
    }

    /** app_event_unregister_timer: every timer with this ID gets ID 0. */
    method UnregisterTimer(id: nat)
      requires Valid()
      modifies timerRecords
      ensures Valid()
      ensures Snapshot() == Apply(old(Snapshot()), DropTimer(id))
    {
      ghost var t0 := Snapshot();
      var i := 0;
      while i < timerCount
        invariant 0 <= i <= timerCount
        invariant forall k :: 0 <= k < i ==> timerRecords[k] == ZeroAll(t0.timers, id)[k]
        invariant forall k :: i <= k < timerCount ==> timerRecords[k] == t0.timers[k]
      {
        if timerRecords[i].id == id {
          timerRecords[i] := timerRecords[i].(id := 0);
        }
        i := i + 1;
      }
      assert timerRecords[..timerCount] == ZeroAll(t0.timers, id);
    }

    /**
     * Runs what one callback does, in order; each timer registration brings
     * its own clock reading. A call
     * that fails one of the reactor's assertions aborts the program: `ok` is
     * false and the rest of the list is not run.
     */
    method RunActions(actions: seq<Action>) returns (ok: bool)
      requires Valid()
      modifies Repr
      ensures Valid() && fresh(Repr - old(Repr))
      ensures ok == (WellFormedPrefix(actions) == |actions|)
      ensures Snapshot() == ApplyAll(old(Snapshot()), actions[..WellFormedPrefix(actions)])
    {
      ghost var t0 := Snapshot();
      ghost var n := WellFormedPrefix(actions);
      var i := 0;
      while i < |actions|
        invariant 0 <= i <= n
        invariant Valid() && fresh(Repr - old(Repr))
        invariant Snapshot() == ApplyAll(t0, actions[..i])
      {
        if !WellFormed(actions[i]) {
          return false;
        }
        assert i < n;
        RunAction(actions[i]);
        assert actions[..i + 1][..i] == actions[..i];
        i := i + 1;
      }
      assert actions[..i] == actions;
      return true;
    }
  
    /** The reactor call one action stands for. */
    method RunAction(a: Action)
      requires Valid() && WellFormed(a)
      modifies Repr
      ensures Valid() && fresh(Repr - old(Repr))
      ensures Snapshot() == Apply(old(Snapshot()), a)
    {
      match a {
        case AddIo(fd, events, callback, userData) =>
          var _ := RegisterIo(fd, events, callback, userData);
        case DropIo(id) =>
          UnregisterIo(id);
        case AddTimer(period, callback, userData, clock) =>
          var _ := RegisterTimer(period, clock, callback, userData);
        case DropTimer(id) =>
          UnregisterTimer(id);
      }
    }

    /** gc_io: swap-removes every record with ID 0 together with its pfd. */
    method GcIo()
      requires Valid()
      modifies this, ioRecords, ioPfds
      ensures Valid() && Repr == old(Repr)
      ensures ioRecords == old(ioRecords) && ioPfds == old(ioPfds) && timerRecords == old(timerRecords)
      ensures Snapshot() == GcIoTables(old(Snapshot()))
    {
      ghost var t0 := Snapshot();
      ioCount := CollectIo(ioRecords, ioPfds, ioCount);
      assert Snapshot() == GcIoTables(t0);
    }

    /** gc_timers: swap-removes every timer with ID 0. */
    method GcTimers()
      requires Valid()
      modifies this, timerRecords
      ensures Valid() && Repr == old(Repr)
      ensures ioRecords == old(ioRecords) && ioPfds == old(ioPfds) && timerRecords == old(timerRecords)
      ensures Snapshot() == GcTimerTables(old(Snapshot()))
    {
      ghost var t0 := Snapshot();
      timerCount := CollectTimers(timerRecords, timerCount);
      assert Snapshot() == GcTimerTables(t0);
    }

    /** The reset loop of app_event_poll: every pfd's revents becomes 0. */
    method ResetRevents()
      requires Valid()
      modifies ioPfds
      ensures Valid()
      ensures Snapshot() == old(Snapshot()).(pfds := ClearRevents(old(Snapshot()).pfds))
    {
      ghost var t0 := Snapshot();
      var i := 0;
      while i < ioCount
        invariant 0 <= i <= ioCount
        invariant forall k :: 0 <= k < i ==> ioPfds[k] == t0.pfds[k].(revents := 0)
        invariant forall k :: i <= k < ioCount ==> ioPfds[k] == t0.pfds[k]
      {
        ioPfds[i] := ioPfds[i].(revents := 0);
        i := i + 1;
      }
      assert ioPfds[..ioCount] == ClearRevents(t0.pfds);
    }

    /**
     * The timeout computation of app_event_poll, with the clock reading `now`:
     * the least remaining time over all timers (0 for an overdue one), starting
     * from INT64_MAX and capped at INT_MAX; -1 without timers; 0 when not blocking.
     */
    method ComputeTimeout(block: bool, now: int) returns (timeout: int)
      requires Valid()
      ensures IsPollTimeout(block, now, Snapshot().timers, timeout)
    {
      if block {
        if timerCount == 0 {
          timeout := -1;
        } else {
          timeout := LONG_MAX;
          var i := 0;
          while i < timerCount
            invariant 0 <= i <= timerCount
            invariant 0 <= timeout <= LONG_MAX
            invariant forall k :: 0 <= k < i ==> timeout <= Remaining(timerRecords[k], now)
            invariant timeout == LONG_MAX || exists k :: 0 <= k < i && timeout == Remaining(timerRecords[k], now)
          {
            var remaining := timerRecords[i].expiry - now;
            if remaining < 0 {
              timeout := 0;
            } else if remaining < timeout {
              timeout := remaining;
            }
            i := i + 1;
          }
        }
      } else {
        timeout := 0;
      }
      if timeout > INT_MAX {
        timeout := INT_MAX;
      }
    }

    /** poll(): every pfd's revents becomes the conditions that hold on its descriptor, as far as it asked for them. */
    method KernelPoll(condition: int -> bv16)
      requires Valid()
      modifies ioPfds
      ensures Valid()
      ensures Snapshot() == old(Snapshot()).(pfds := Polled(old(Snapshot()).pfds, condition))
    {
      ghost var t0 := Snapshot();
      var i := 0;
      while i < ioCount
        invariant 0 <= i <= ioCount
        invariant ioPfds[..i] == Polled(t0.pfds, condition)[..i]
        invariant ioPfds[i..ioCount] == t0.pfds[i..]
      {
        ioPfds[i] := ioPfds[i].(revents := Revents(condition(ioPfds[i].fd), ioPfds[i].events));
        i := i + 1;
      }
      assert ioPfds[..ioCount] == Polled(t0.pfds, condition);
    }
  
    /**
     * One step of the I/O dispatch loop: when the pfd at `i` reports an event
     * and its record is live, the record is marked expended and its callback
     * runs; otherwise nothing happens.
     */
    method DispatchIoAt(i: nat, behaviour: Firing -> seq<Action>) returns (fired: seq<Firing>, status: PollStatus)
      requires Valid() && i < ioCount
      modifies Repr
      ensures Valid() && fresh(Repr - old(Repr))
      ensures Step(Snapshot(), fired, status) == IoStep(old(Snapshot()), i, behaviour)
    {
      if ioPfds[i].revents != 0 && ioRecords[i].id != 0 {
        var f := ExpendIo(i);
        var ok := RunActions(behaviour(f));
        fired := [f];
        status := if ok then Completed else Aborted;
      } else {
        fired := [];
        status := Completed;
      }
    }

    /** Marks the live record at `i` expended, returning the call dispatch is about to make for it. */
    method ExpendIo(i: nat) returns (f: Firing)
      requires Valid() && i < ioCount && ioRecords[i].id != 0 && ioPfds[i].revents != 0
      modifies ioRecords
      ensures Valid()
      ensures f == IoFired(i, old(ioRecords[i].id), old(ioRecords[i].callback), old(ioRecords[i].userData), ioPfds[i].revents)
      ensures Snapshot() == old(Snapshot()).(io := old(Snapshot()).io[i := old(Snapshot()).io[i].(id := 0)])
    {
      ghost var t1 := Snapshot();
      f := IoFired(i, ioRecords[i].id, ioRecords[i].callback, ioRecords[i].userData, ioPfds[i].revents);
      ioRecords[i] := ioRecords[i].(id := 0);
      assert Snapshot() == t1.(io := t1.io[i := t1.io[i].(id := 0)]);
    }

    /**
     * One turn of the I/O dispatch loop inside the pass over the `n0` records
     * poll() saw, with `before` the callbacks made so far and `goal` what the
     * whole pass computes.
     */
    method DispatchIoTurn(i: nat, behaviour: Firing -> seq<Action>, ghost n0: nat,
                          ghost before: seq<Firing>, ghost goal: Step) returns (more: seq<Firing>, status: PollStatus)
      requires Valid() && i < ioCount && QuietFrom(Snapshot(), n0)
      requires IoRest(before, Snapshot(), i, n0, behaviour) == goal
      modifies Repr
      ensures Valid() && fresh(Repr - old(Repr)) && QuietFrom(Snapshot(), n0)
      ensures status == Completed ==> i < ioCount && IoRest(before + more, Snapshot(), i + 1, n0, behaviour) == goal
      ensures status != Completed ==> Step(Snapshot(), before + more, status) == goal
      ensures i >= n0 ==> ioCount == old(ioCount)
    {
      ghost var t := Snapshot();
      IoStepQuiet(t, i, n0, behaviour);
      if i < n0 {
        IoPassUnfold(t, i, n0, behaviour);
      }
      more, status := DispatchIoAt(i, behaviour);
      if status == Completed {
        if i < n0 {
          ThenThen(before, more, IoPass(Snapshot(), i + 1, n0, behaviour));
        } else {
          assert before + [] == before;
        }
      }
    }

    /**
     * The I/O dispatch loop of app_event_poll: it computes IoPass over the records poll() saw, whose properties
     * (each ready live record fires once, in storage order) are proved in
     * EventPass. The loop re-reads the count, as the source does; the records
     * callbacks append are visited but never fire.
     */
    method DispatchIo( behaviour: Firing -> seq<Action>) returns (fired: seq<Firing>, status: PollStatus)
      requires Valid()
      requires QuietFrom(Snapshot(), ioCount)
      modifies Repr
      ensures Valid() && fresh(Repr - old(Repr))
      ensures Step(Snapshot(), fired, status) == IoPass(old(Snapshot()), 0, old(ioCount), behaviour)
    {
      ghost var n0 := ioCount;
      ghost var goal := IoPass(Snapshot(), 0, n0, behaviour);
      fired := [];
      var i := 0;
      while i < ioCount
        invariant Valid() && fresh(Repr - old(Repr))
        invariant i <= ioCount && QuietFrom(Snapshot(), n0)
        invariant IoRest(fired, Snapshot(), i, n0, behaviour) == goal
        decreases if i < n0 then n0 - i else 0, ioCount - i
      {
        var more, st := DispatchIoTurn(i, behaviour, n0, fired, goal);
        fired := fired + more;
        if st != Completed {
          return fired, st;
        }
        i := i + 1;
      }
      assert fired + [] == fired;
      return fired, Completed;
    }

    /** Marks the live timer at `i` expended, returning the call dispatch is about to make for it. */
    method ExpendTimer(i: nat) returns (f: Firing)
      requires Valid() && i < timerCount && timerRecords[i].id != 0
      modifies timerRecords
      ensures Valid()
      ensures f == TimerFired(i, old(timerRecords[i].id), old(timerRecords[i].callback), old(timerRecords[i].userData))
      ensures Snapshot() == old(Snapshot()).(timers := old(Snapshot()).timers[i := old(Snapshot()).timers[i].(id := 0)])
    {
      ghost var t1 := Snapshot();
      f := TimerFired(i, timerRecords[i].id, timerRecords[i].callback, timerRecords[i].userData);
      timerRecords[i] := timerRecords[i].(id := 0);
      assert Snapshot() == t1.(timers := t1.timers[i := t1.timers[i].(id := 0)]);
    }

    /**
     * One turn of the timer dispatch loop with `left` callbacks still allowed:
     * a live timer due at `now` is marked expended and its callback runs. The
     * pass from `i` is this turn followed by the pass from `i + 1`.
     */
    method DispatchTimerAt(i: nat, now: int, behaviour: Firing -> seq<Action>, left: nat)
      returns (fired: seq<Firing>, status: PollStatus, left': nat)
      requires Valid() && i < timerCount
      modifies Repr
      ensures Valid() && fresh(Repr - old(Repr))
      ensures status == Completed ==> i < timerCount
      ensures status == Completed ==>
        TimerPass(old(Snapshot()), i, now, behaviour, left) == Then(fired, TimerPass(Snapshot(), i + 1, now, behaviour, left'))
      ensures status != Completed ==> TimerPass(old(Snapshot()), i, now, behaviour, left) == Step(Snapshot(), fired, status)
      ensures left' < left || (left' == left && Snapshot() == old(Snapshot()))
    {
      ghost var t := Snapshot();
      if timerRecords[i].expiry <= now && timerRecords[i].id != 0 {
        if left == 0 {
          return [], OutOfFuel, 0;
        }
        TimerPassUnfold(t, i, now, behaviour, left);
        var f := ExpendTimer(i);
        var ok := RunActions(behaviour(f));
        fired := [f];
        status := if ok then Completed else Aborted;
        left' := left - 1;
        assert TimerStep(t, i, now, behaviour) == Step(Snapshot(), fired, status);
      } else {
        TimerPassUnfold(t, i, now, behaviour, left);
        fired := [];
        status := Completed;
        left' := left;
      }
    }

    /**
     * The timer dispatch loop of app_event_poll with the clock reading `now`
     * taken after I/O dispatch: it computes TimerPass, re-reading the count
     * on every turn as the loop does. `fuel` bounds the number of callbacks,
     * since the loop itself need not end (see TimerChainNeverEnds).
     */
    method DispatchTimers(now: int, behaviour: Firing -> seq<Action>, fuel: nat) returns (fired: seq<Firing>, status: PollStatus)
      requires Valid()
      modifies Repr
      ensures Valid() && fresh(Repr - old(Repr))
      ensures Step(Snapshot(), fired, status) == TimerPass(old(Snapshot()), 0, now, behaviour, fuel)
    {
      ghost var t0 := Snapshot();
      fired := [];
      var left := fuel;
      var i := 0;
      while i < timerCount
        invariant Valid() && fresh(Repr - old(Repr))
        invariant i <= timerCount
        invariant Then(fired, TimerPass(Snapshot(), i, now, behaviour, left)) == TimerPass(t0, 0, now, behaviour, fuel)
        decreases left, timerCount - i
      {
        ghost var before := fired;
        var more, st;
        more, st, left := DispatchTimerAt(i, now, behaviour, left);
        fired := fired + more;
        if st != Completed {
          return fired, st;
        }
        ThenThen(before, more, TimerPass(Snapshot(), i + 1, now, behaviour, left));
        i := i + 1;
      }
      assert fired + [] == fired;
      return fired, Completed;
    }
  
    /**
     * The retry loop of app_event_poll: each round computes the timeout from
     * its own clock reading and calls poll(), until poll() returns anything
     * but an interruption. `n` is that round, or |attempts| if every given
     * round was interrupted.
     */
    method AwaitEvents(block: bool, attempts: seq<Attempt>) returns (n: nat, timeouts: seq<int>)
      requires Valid()
      ensures n == FirstAnswer(attempts)
      ensures |timeouts| == if n < |attempts| then n + 1 else n
      ensures forall k :: 0 <= k < |timeouts| ==> IsPollTimeout(block, attempts[k].clock, Snapshot().timers, timeouts[k])
    {
      n := 0;
      timeouts := [];
      while n < |attempts|
        invariant n <= FirstAnswer(attempts) && |timeouts| == n
        invariant forall k :: 0 <= k < n ==> IsPollTimeout(block, attempts[k].clock, Snapshot().timers, timeouts[k])
      {
        var timeout := ComputeTimeout(block, attempts[n].clock);
        timeouts := timeouts + [timeout];
        if !attempts[n].answer.Interrupted? {
          return;
        }
        n := n + 1;
      }
    }

    /**
     * app_event_poll: collect expended records, clear revents, wait for
     * events (retrying after interruptions), then dispatch I/O callbacks and
     * timer callbacks, the latter against the clock reading `now` taken after
     * I/O dispatch (every registration a callback makes reads the clock
     * itself, as the action it performs says). poll() failing
     * otherwise is fatal: the program aborts. The callbacks run inside it are
     * given by `behaviour`; `fuel` bounds the timer callbacks.
     */
    method Poll(block: bool, attempts: seq<Attempt>, now: int, behaviour: Firing -> seq<Action>, fuel: nat)
      returns (status: PollStatus, timeouts: seq<int>, fired: seq<Firing>)
      requires Valid()
      modifies Repr
      ensures Valid() && fresh(Repr - old(Repr))
      ensures |timeouts| == if FirstAnswer(attempts) < |attempts| then FirstAnswer(attempts) + 1 else |attempts|
      ensures forall k :: 0 <= k < |timeouts| ==>
        IsPollTimeout(block, attempts[k].clock, Collected(old(Snapshot())).timers, timeouts[k])
      ensures FirstAnswer(attempts) == |attempts| ==> status == OutOfFuel && fired == []
      ensures FirstAnswer(attempts) < |attempts| && attempts[FirstAnswer(attempts)].answer.Failed? ==>
        status == Aborted && fired == []
      ensures FirstAnswer(attempts) < |attempts| && attempts[FirstAnswer(attempts)].answer.Ready? ==>
        Step(Snapshot(), fired, status) ==
          PollPass(old(Snapshot()), attempts[FirstAnswer(attempts)].answer.condition, now, behaviour, fuel)
    {
      Collect();
      var n;
      n, timeouts := AwaitEvents(block, attempts);
      if n == |attempts| {
        return OutOfFuel, timeouts, [];
      }
      match attempts[n].answer {
        case Failed =>
          return Aborted, timeouts, [];
        case Ready(condition) =>
          fired, status := Dispatch(condition, now, behaviour, fuel);
      }
    }

    /** The start of app_event_poll: both collections, then the revents reset. */
    method Collect()
      requires Valid()
      modifies this, ioRecords, ioPfds, timerRecords
      ensures Valid() && Repr == old(Repr)
      ensures Snapshot() == Collected(old(Snapshot())).(pfds := ClearRevents(Collected(old(Snapshot())).pfds))
    {
      GcIo();
      GcTimers();
      ResetRevents();
    }

    /** What app_event_poll does once poll() reported `condition`: I/O dispatch, then, unless aborted, timer dispatch. */
    method Dispatch(condition: int -> bv16, now: int, behaviour: Firing -> seq<Action>, fuel: nat)
      returns (fired: seq<Firing>, status: PollStatus)
      requires Valid()
      modifies Repr
      ensures Valid() && fresh(Repr - old(Repr))
      ensures Step(Snapshot(), fired, status) ==
        DispatchPass(old(Snapshot()).(pfds := Polled(old(Snapshot()).pfds, condition)), now, behaviour, fuel)
    {
      KernelPoll(condition);
      var more;
      fired, status := DispatchIo( behaviour);
      if status == Completed {
        more, status := DispatchTimers(now, behaviour, fuel);
        fired := fired + more;
      }
    }
  }
}
