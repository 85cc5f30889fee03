/*
 * One call of app_event_poll as a function of the reactor's tables: the I/O
 * dispatch pass, the timer dispatch pass, and their composition with
 * collection and polling. The Reactor's methods compute exactly these; the
 * lemmas here state what a pass guarantees.
 */
module EventPass {
  import opened Common
  import opened EventSpec
  import opened EventTables

  /** How a call of app_event_poll ended. */
  datatype PollStatus =
    | Completed
    | Aborted    // poll() failed with an error other than EINTR, or a callback tripped an assertion
    | OutOfFuel  // the model's bound on callbacks (or on interrupted polls) is exhausted first

  /** The tables after (part of) a pass, the callbacks it made in order, and how it ended. */
  datatype Step = Step(tables: Tables, fired: seq<Firing>, status: PollStatus)

  /** Each callback in `fired` is an I/O dispatch of `t` at position `i` or later. */
  ghost predicate IoFiredAllFrom(t: Tables, fired: seq<Firing>, i: nat) {
    forall j :: 0 <= j < |fired| ==> IoFiredFrom(t, fired[j]) && i <= fired[j].index
  }

  /** Callbacks happen in increasing position order, so no position is dispatched twice. */
  ghost predicate Increasing(fired: seq<Firing>) {
    forall j, j' :: 0 <= j < j' < |fired| ==> fired[j].index < fired[j'].index
  }

  /** `s` with the callbacks `before` made ahead of it. */
  function Then(before: seq<Firing>, s: Step): Step {
    Step(s.tables, before + s.fired, s.status)
  }

  lemma ThenThen(a: seq<Firing>, b: seq<Firing>, s: Step)
    ensures Then(a, Then(b, s)) == Then(a + b, s)
  {
    assert a + (b + s.fired) == (a + b) + s.fired;
  }

  /** One callback: its actions up to the first that trips an assertion, which aborts the program. */
  function RunCallback(t: Tables, f: Firing, behaviour: Firing -> seq<Action>): (r: Step)
    ensures |t.io| == |t.pfds| ==> |r.tables.io| == |r.tables.pfds|
    ensures |t.io| <= |r.tables.io| && |t.timers| <= |r.tables.timers|
  {
    var actions := behaviour(f);
    var n := WellFormedPrefix(actions);
    Step(ApplyAll(t, actions[..n]), [f], if n == |actions| then Completed else Aborted)
  }

  lemma RunCallbackEvolved(t: Tables, f: Firing, behaviour: Firing -> seq<Action>)
    requires |t.io| == |t.pfds|
    ensures Evolved(t, RunCallback(t, f, behaviour).tables)
  {
    var n := WellFormedPrefix(behaviour(f));
    ApplyAllEvolved(t, behaviour(f)[..n]);
  }

  lemma RunCallbackKeepsIssued(t: Tables, f: Firing, behaviour: Firing -> seq<Action>)
    requires WellIssued(t)
    ensures WellIssued(RunCallback(t, f, behaviour).tables)
  {
    var n := WellFormedPrefix(behaviour(f));
    ApplyAllKeepsIssued(t, behaviour(f)[..n]);
  }

  // ---------------------------------------------------------------------------
  // I/O dispatch
  // ---------------------------------------------------------------------------

  /** One turn of the I/O dispatch loop at position i. */
  function IoStep(t: Tables, i: nat, behaviour: Firing -> seq<Action>): (r: Step)
    requires i < |t.io| == |t.pfds|
    ensures |r.tables.io| == |r.tables.pfds| && |t.io| <= |r.tables.io|
  {
    if t.pfds[i].revents != 0 && t.io[i].id != 0 then
      RunCallback(t.(io := t.io[i := t.io[i].(id := 0)]),
                  IoFired(i, t.io[i].id, t.io[i].callback, t.io[i].userData, t.pfds[i].revents), behaviour)
    else
      Step(t, [], Completed)
  }

  /** Records from position n0 on were registered during the pass: poll() never saw them, so their revents is 0. */
  ghost predicate QuietFrom(t: Tables, n0: nat) {
    n0 <= |t.io| == |t.pfds| && forall k :: n0 <= k < |t.io| ==> t.pfds[k].revents == 0
  }

  lemma IoStepEvolved(t: Tables, i: nat, behaviour: Firing -> seq<Action>)
    requires i < |t.io| == |t.pfds|
    ensures Evolved(t, IoStep(t, i, behaviour).tables)
  {
    if t.pfds[i].revents != 0 && t.io[i].id != 0 {
      var t' := t.(io := t.io[i := t.io[i].(id := 0)]);
      var f := IoFired(i, t.io[i].id, t.io[i].callback, t.io[i].userData, t.pfds[i].revents);
      assert Evolved(t, t');
      RunCallbackEvolved(t', f, behaviour);
      EvolvedTransitive(t, t', IoStep(t, i, behaviour).tables);
    } else {
      EvolvedReflexive(t);
    }
  }

  /** Records added during the pass never fire: a turn at such a position changes nothing, and every turn keeps them quiet. */
  lemma IoStepQuiet(t: Tables, i: nat, n0: nat, behaviour: Firing -> seq<Action>)
    requires QuietFrom(t, n0) && i < |t.io|
    ensures QuietFrom(IoStep(t, i, behaviour).tables, n0)
    ensures i >= n0 ==> IoStep(t, i, behaviour) == Step(t, [], Completed)
  {
    IoStepEvolved(t, i, behaviour);
  }

  /**
   * The turns of the I/O dispatch loop from position i up to n0, the record
   * count poll() saw. The loop re-reads the count and so also visits records
   * appended by callbacks, but those turns change nothing (IoStepQuiet), so
   * the pass ends at n0.
   */
  ghost function IoPass(t: Tables, i: nat, n0: nat, behaviour: Firing -> seq<Action>): (r: Step)
    requires |t.io| == |t.pfds| && i <= n0 <= |t.io|
    ensures |r.tables.io| == |r.tables.pfds| && |t.io| <= |r.tables.io|
    decreases n0 - i
  {
    if i == n0 then Step(t, [], Completed)
    else
      var s := IoStep(t, i, behaviour);
      if s.status != Completed then s
      else Then(s.fired, IoPass(s.tables, i + 1, n0, behaviour))
  }

  /** The first turn of the pass from `i`, unfolded. */
  lemma IoPassUnfold(t: Tables, i: nat, n0: nat, behaviour: Firing -> seq<Action>)
    requires |t.io| == |t.pfds| && i < n0 <= |t.io|
    ensures IoStep(t, i, behaviour).status != Completed ==> IoPass(t, i, n0, behaviour) == IoStep(t, i, behaviour)
    ensures IoStep(t, i, behaviour).status == Completed ==>
      IoPass(t, i, n0, behaviour) == Then(IoStep(t, i, behaviour).fired,
                                               IoPass(IoStep(t, i, behaviour).tables, i + 1, n0, behaviour))
  {
  }

  lemma {:induction false} IoPassEvolved(t: Tables, i: nat, n0: nat, behaviour: Firing -> seq<Action>)
    requires |t.io| == |t.pfds| && i <= n0 <= |t.io|
    ensures Evolved(t, IoPass(t, i, n0, behaviour).tables)
    decreases n0 - i
  {
    if i == n0 {
      EvolvedReflexive(t);
    } else {
      var s := IoStep(t, i, behaviour);
      IoStepEvolved(t, i, behaviour);
      if s.status == Completed {
        IoPassEvolved(s.tables, i + 1, n0, behaviour);
        EvolvedTransitive(t, s.tables, IoPass(t, i, n0, behaviour).tables);
      }
    }
  }

  /** Callbacks dispatched from evolved tables were already due in the original ones. */
  lemma IoFiredAllFromEarlier(t0: Tables, t1: Tables, fired: seq<Firing>, lo: nat)
    requires Evolved(t0, t1) && IoFiredAllFrom(t1, fired, lo)
    ensures IoFiredAllFrom(t0, fired, lo)
  {
    forall j | 0 <= j < |fired| ensures IoFiredFrom(t0, fired[j]) {
      IoFiredFromEarlier(t0, t1, fired[j]);
    }
  }

  /** One turn's callback at position i followed by the rest of the pass's, all later and below n0. */
  lemma FiredConcat(t: Tables, a: seq<Firing>, b: seq<Firing>, i: nat, n0: nat)
    requires i < n0 && |a| <= 1 && IoFiredAllFrom(t, a, i) && (forall j :: 0 <= j < |a| ==> a[j].index == i)
    requires IoFiredAllFrom(t, b, i + 1) && Increasing(b) && (forall j :: 0 <= j < |b| ==> b[j].index < n0)
    ensures IoFiredAllFrom(t, a + b, i) && Increasing(a + b)
    ensures forall j :: 0 <= j < |a + b| ==> (a + b)[j].index < n0
  {
    forall j | 0 <= j < |a + b| ensures IoFiredFrom(t, (a + b)[j]) && i <= (a + b)[j].index < n0 {
      if j >= |a| {
        assert (a + b)[j] == b[j - |a|];
      }
    }
  }

  /** An I/O turn makes at most one callback, for the ready live record at position i. */
  lemma IoStepFired(t: Tables, i: nat, behaviour: Firing -> seq<Action>)
    requires i < |t.io| == |t.pfds|
    ensures var s := IoStep(t, i, behaviour);
      IoFiredAllFrom(t, s.fired, i) && |s.fired| <= 1 && forall j :: 0 <= j < |s.fired| ==> s.fired[j].index == i
  {
  }

  /**
   * Every callback the I/O pass makes is for a record that was live and ready
   * when the pass began, with that record's own callback, data and revents,
   * and positions only increase, so no record is dispatched twice.
   */
  lemma {:induction false} IoPassFired(t: Tables, i: nat, n0: nat, behaviour: Firing -> seq<Action>)
    requires |t.io| == |t.pfds| && i <= n0 <= |t.io|
    ensures IoFiredAllFrom(t, IoPass(t, i, n0, behaviour).fired, i)
    ensures Increasing(IoPass(t, i, n0, behaviour).fired)
    ensures forall j :: 0 <= j < |IoPass(t, i, n0, behaviour).fired| ==> IoPass(t, i, n0, behaviour).fired[j].index < n0
    decreases n0 - i
  {
    if i < n0 {
      var s := IoStep(t, i, behaviour);
      IoStepFired(t, i, behaviour);
      IoPassUnfold(t, i, n0, behaviour);
      if s.status == Completed {
        var r := IoPass(s.tables, i + 1, n0, behaviour);
        IoPassFired(s.tables, i + 1, n0, behaviour);
        assert IoFiredAllFrom(t, r.fired, i + 1) by {
          IoStepEvolved(t, i, behaviour);
          IoFiredAllFromEarlier(t, s.tables, r.fired, i + 1);
        }
        FiredConcat(t, s.fired, r.fired, i, n0);
      }
    }
  }

  /** When the I/O pass completes, no record is both ready and live from position `i` on. */
  lemma {:induction false} IoPassExpends(t: Tables, i: nat, n0: nat, behaviour: Firing -> seq<Action>)
    requires QuietFrom(t, n0) && i <= n0
    ensures var r := IoPass(t, i, n0, behaviour);
      r.status == Completed ==>
        forall k :: i <= k < |r.tables.io| ==> r.tables.pfds[k].revents != 0 ==> r.tables.io[k].id == 0
    decreases n0 - i
  {
    if i < n0 {
      var s := IoStep(t, i, behaviour);
      IoStepQuiet(t, i, n0, behaviour);
      IoPassUnfold(t, i, n0, behaviour);
      if s.status == Completed {
        var r := IoPass(s.tables, i + 1, n0, behaviour);
        assert IoPass(t, i, n0, behaviour).tables == r.tables;
        IoPassExpends(s.tables, i + 1, n0, behaviour);
        IoPassEvolved(s.tables, i + 1, n0, behaviour);
        assert s.tables.pfds[i].revents != 0 ==> s.tables.io[i].id == 0 by {
          if t.pfds[i].revents != 0 && t.io[i].id != 0 {
            var t' := t.(io := t.io[i := t.io[i].(id := 0)]);
            RunCallbackEvolved(t', IoFired(i, t.io[i].id, t.io[i].callback, t.io[i].userData, t.pfds[i].revents), behaviour);
          }
        }
        EvolvedKeepsExpended(s.tables, r.tables, i, i + 1);
      }
    }
  }

  lemma {:induction false} IoPassKeepsIssued(t: Tables, i: nat, n0: nat, behaviour: Firing -> seq<Action>)
    requires |t.io| == |t.pfds| && i <= n0 <= |t.io| && WellIssued(t)
    ensures WellIssued(IoPass(t, i, n0, behaviour).tables)
    decreases n0 - i
  {
    if i < n0 {
      var s := IoStep(t, i, behaviour);
      assert WellIssued(s.tables) by {
        if t.pfds[i].revents != 0 && t.io[i].id != 0 {
          ZeroIoKeepsUnique(t, i);
          RunCallbackKeepsIssued(t.(io := t.io[i := t.io[i].(id := 0)]),
            IoFired(i, t.io[i].id, t.io[i].callback, t.io[i].userData, t.pfds[i].revents), behaviour);
        }
      }
      if s.status == Completed {
        IoPassKeepsIssued(s.tables, i + 1, n0, behaviour);
        assert IoPass(t, i, n0, behaviour).tables == IoPass(s.tables, i + 1, n0, behaviour).tables;
      }
    }
  }

  // ---------------------------------------------------------------------------
  // Timer dispatch
  // ---------------------------------------------------------------------------

  /** One turn of the timer dispatch loop at position i, with the clock reading `now` taken before the loop. */
  function TimerStep(t: Tables, i: nat, now: int, behaviour: Firing -> seq<Action>): (r: Step)
    requires i < |t.timers|
    ensures |t.io| == |t.pfds| ==> |r.tables.io| == |r.tables.pfds|
    ensures |t.timers| <= |r.tables.timers|
  {
    if t.timers[i].expiry <= now && t.timers[i].id != 0 then
      RunCallback(t.(timers := t.timers[i := t.timers[i].(id := 0)]),
                  TimerFired(i, t.timers[i].id, t.timers[i].callback, t.timers[i].userData), behaviour)
    else
      Step(t, [], Completed)
  }

  lemma TimerStepEvolved(t: Tables, i: nat, now: int, behaviour: Firing -> seq<Action>)
    requires i < |t.timers| && |t.io| == |t.pfds|
    ensures Evolved(t, TimerStep(t, i, now, behaviour).tables)
  {
    if t.timers[i].expiry <= now && t.timers[i].id != 0 {
      var t' := t.(timers := t.timers[i := t.timers[i].(id := 0)]);
      var f := TimerFired(i, t.timers[i].id, t.timers[i].callback, t.timers[i].userData);
      assert Evolved(t, t');
      RunCallbackEvolved(t', f, behaviour);
      EvolvedTransitive(t, t', TimerStep(t, i, now, behaviour).tables);
    } else {
      EvolvedReflexive(t);
    }
  }

  /**
   * The timer dispatch loop from position i on. The loop re-reads the count,
   * so a timer registered by a callback is visited in the same pass, and fires
   * if it is already due at `now`. `fuel` bounds the number of callbacks.
   */
  ghost function TimerPass(t: Tables, i: nat, now: int, behaviour: Firing -> seq<Action>, fuel: nat): (r: Step)
    requires |t.io| == |t.pfds| && i <= |t.timers|
    ensures |r.tables.io| == |r.tables.pfds|
    decreases fuel, |t.timers| - i
  {
    if i == |t.timers| then Step(t, [], Completed)
    else if t.timers[i].expiry <= now && t.timers[i].id != 0 && fuel == 0 then Step(t, [], OutOfFuel)
    else
      var s := TimerStep(t, i, now, behaviour);
      if s.status != Completed then s
      else
        Then(s.fired, TimerPass(s.tables, i + 1, now, behaviour, if s.fired == [] then fuel else fuel - 1))
  }

  /** The first turn of the timer pass from `i`, unfolded, when it does not stop for lack of fuel. */
  lemma TimerPassUnfold(t: Tables, i: nat, now: int, behaviour: Firing -> seq<Action>, fuel: nat)
    requires |t.io| == |t.pfds| && i < |t.timers|
    requires !(t.timers[i].expiry <= now && t.timers[i].id != 0 && fuel == 0)
    ensures var s := TimerStep(t, i, now, behaviour);
      |s.tables.io| == |s.tables.pfds| && i < |s.tables.timers| && |s.fired| <= 1 && (s.fired == [] || fuel > 0)
    ensures TimerStep(t, i, now, behaviour).status != Completed ==>
      TimerPass(t, i, now, behaviour, fuel) == TimerStep(t, i, now, behaviour)
    ensures TimerStep(t, i, now, behaviour).status == Completed ==>
      TimerPass(t, i, now, behaviour, fuel) ==
        Then(TimerStep(t, i, now, behaviour).fired,
             TimerPass(TimerStep(t, i, now, behaviour).tables, i + 1, now, behaviour,
                       if TimerStep(t, i, now, behaviour).fired == [] then fuel else fuel - 1))
  {
    TimerStepEvolved(t, i, now, behaviour);
  }

  lemma {:induction false} TimerPassEvolved(t: Tables, i: nat, now: int, behaviour: Firing -> seq<Action>, fuel: nat)
    requires |t.io| == |t.pfds| && i <= |t.timers|
    ensures Evolved(t, TimerPass(t, i, now, behaviour, fuel).tables)
    decreases fuel, |t.timers| - i
  {
    if i == |t.timers| || (t.timers[i].expiry <= now && t.timers[i].id != 0 && fuel == 0) {
      EvolvedReflexive(t);
    } else {
      var s := TimerStep(t, i, now, behaviour);
      TimerStepEvolved(t, i, now, behaviour);
      if s.status == Completed {
        TimerPassEvolved(s.tables, i + 1, now, behaviour, if s.fired == [] then fuel else fuel - 1);
        EvolvedTransitive(t, s.tables, TimerPass(t, i, now, behaviour, fuel).tables);
      }
    }
  }

  /** Each callback in `fired` is a timer dispatch at position `i` or later, of a timer due at `now`; those at positions `t` had are dispatches of `t`. */
  ghost predicate TimerFiredAllFrom(t: Tables, fired: seq<Firing>, i: nat, now: int) {
    forall j :: 0 <= j < |fired| ==>
      && fired[j].TimerFired? && fired[j].id != 0 && i <= fired[j].index
      && (fired[j].index < |t.timers| ==> TimerFiredFrom(t, fired[j], now))
  }

  /** Timer callbacks dispatched from evolved tables were already due in the original ones, where they existed. */
  lemma TimerFiredAllFromEarlier(t0: Tables, t1: Tables, fired: seq<Firing>, lo: nat, now: int)
    requires Evolved(t0, t1) && TimerFiredAllFrom(t1, fired, lo, now)
    ensures TimerFiredAllFrom(t0, fired, lo, now)
  {
    forall j | 0 <= j < |fired| && fired[j].index < |t0.timers| ensures TimerFiredFrom(t0, fired[j], now) {
      TimerFiredFromEarlier(t0, t1, fired[j], now);
    }
  }

  /** One turn's timer callback at position i followed by the rest of the pass's, all later. */
  lemma TimerFiredConcat(t: Tables, a: seq<Firing>, b: seq<Firing>, i: nat, now: int)
    requires |a| <= 1 && TimerFiredAllFrom(t, a, i, now) && (forall j :: 0 <= j < |a| ==> a[j].index == i)
    requires TimerFiredAllFrom(t, b, i + 1, now) && Increasing(b)
    ensures TimerFiredAllFrom(t, a + b, i, now) && Increasing(a + b)
  {
    forall j | 0 <= j < |a + b| ensures (a + b)[j] == if j < |a| then a[j] else b[j - |a|] {
    }
  }

  /** A timer turn makes at most one callback, for the live due timer at position i. */
  lemma TimerStepFired(t: Tables, i: nat, now: int, behaviour: Firing -> seq<Action>)
    requires i < |t.timers|
    ensures var s := TimerStep(t, i, now, behaviour);
      TimerFiredAllFrom(t, s.fired, i, now) && |s.fired| <= 1 && forall j :: 0 <= j < |s.fired| ==> s.fired[j].index == i
  {
  }

  /**
   * Every callback the timer pass makes is for a live timer due at `now`, in
   * increasing position order; one that existed when the pass began is called
   * with its own callback and data.
   */
  lemma {:induction false} TimerPassFired(t: Tables, i: nat, now: int, behaviour: Firing -> seq<Action>, fuel: nat)
    requires |t.io| == |t.pfds| && i <= |t.timers|
    ensures var r := TimerPass(t, i, now, behaviour, fuel);
      TimerFiredAllFrom(t, r.fired, i, now) && Increasing(r.fired)
    decreases fuel, |t.timers| - i
  {
    if i < |t.timers| && !(t.timers[i].expiry <= now && t.timers[i].id != 0 && fuel == 0) {
      var s := TimerStep(t, i, now, behaviour);
      TimerStepFired(t, i, now, behaviour);
      TimerPassUnfold(t, i, now, behaviour, fuel);
      if s.status == Completed {
        var fuel' := if s.fired == [] then fuel else fuel - 1;
        var r := TimerPass(s.tables, i + 1, now, behaviour, fuel');
        TimerPassFired(s.tables, i + 1, now, behaviour, fuel');
        assert TimerFiredAllFrom(t, r.fired, i + 1, now) by {
          TimerStepEvolved(t, i, now, behaviour);
          TimerFiredAllFromEarlier(t, s.tables, r.fired, i + 1, now);
        }
        TimerFiredConcat(t, s.fired, r.fired, i, now);
      }
    }
  }

  /** The timer pass makes at most `fuel` callbacks, and runs out of fuel only after exactly that many. */
  lemma {:induction false} TimerPassFuel(t: Tables, i: nat, now: int, behaviour: Firing -> seq<Action>, fuel: nat)
    requires |t.io| == |t.pfds| && i <= |t.timers|
    ensures var r := TimerPass(t, i, now, behaviour, fuel);
      |r.fired| <= fuel && (r.status == OutOfFuel ==> |r.fired| == fuel)
    decreases fuel, |t.timers| - i
  {
    if i < |t.timers| && !(t.timers[i].expiry <= now && t.timers[i].id != 0 && fuel == 0) {
      var s := TimerStep(t, i, now, behaviour);
      TimerStepEvolved(t, i, now, behaviour);
      if s.status == Completed {
        TimerPassFuel(s.tables, i + 1, now, behaviour, if s.fired == [] then fuel else fuel - 1);
      }
    }
  }

  /** After a timer turn, the timer at position i is not both live and due. */
  lemma TimerStepExpends(t: Tables, i: nat, now: int, behaviour: Firing -> seq<Action>)
    requires |t.io| == |t.pfds| && i < |t.timers|
    ensures var s := TimerStep(t, i, now, behaviour);
      s.tables.timers[i].expiry <= now ==> s.tables.timers[i].id == 0
  {
    if t.timers[i].expiry <= now && t.timers[i].id != 0 {
      var t' := t.(timers := t.timers[i := t.timers[i].(id := 0)]);
      RunCallbackEvolved(t', TimerFired(i, t.timers[i].id, t.timers[i].callback, t.timers[i].userData), behaviour);
    }
  }

  /** When the timer pass completes, every timer due at `now` that it could see has been consumed. */
  lemma {:induction false} TimerPassExpires(t: Tables, i: nat, now: int, behaviour: Firing -> seq<Action>, fuel: nat)
    requires |t.io| == |t.pfds| && i <= |t.timers|
    ensures var r := TimerPass(t, i, now, behaviour, fuel);
      r.status == Completed ==>
        forall k :: i <= k < |r.tables.timers| ==> r.tables.timers[k].expiry <= now ==> r.tables.timers[k].id == 0
    decreases fuel, |t.timers| - i
  {
    if i < |t.timers| && !(t.timers[i].expiry <= now && t.timers[i].id != 0 && fuel == 0) {
      var s := TimerStep(t, i, now, behaviour);
      TimerPassUnfold(t, i, now, behaviour, fuel);
      if s.status == Completed {
        var fuel' := if s.fired == [] then fuel else fuel - 1;
        var r := TimerPass(s.tables, i + 1, now, behaviour, fuel');
        TimerStepEvolved(t, i, now, behaviour);
        TimerPassExpires(s.tables, i + 1, now, behaviour, fuel');
        TimerPassEvolved(s.tables, i + 1, now, behaviour, fuel');
        TimerStepExpends(t, i, now, behaviour);
        EvolvedKeepsExpendedTimers(s.tables, r.tables, now, i, i + 1);
      }
    }
  }

  /**
   * The timer loop re-reads the count, so a timer callback that registers a
   * zero-period timer keeps the pass going while the clock still reads `now`,
   * the value taken before the loop: as long as a live due timer is ahead and
   * every such registration reads `now`, no amount of fuel lets the pass
   * complete. With CLOCK_MONOTONIC_COARSE this lasts until the clock ticks;
   * TimerChainEnds covers what happens after.
   */
  lemma {:induction false} TimerChainNeverEnds(t: Tables, i: nat, now: int, behaviour: Firing -> seq<Action>, fuel: nat,
                                               h: Handler, u: object?)
    requires |t.io| == |t.pfds| && i <= |t.timers|
    requires forall f: Firing :: f.TimerFired? ==> behaviour(f) == [AddTimer(0, h, u, now)]
    requires exists k :: i <= k < |t.timers| && t.timers[k].expiry <= now && t.timers[k].id != 0
    ensures TimerPass(t, i, now, behaviour, fuel).status == OutOfFuel
    decreases fuel, |t.timers| - i
  {
    var k :| i <= k < |t.timers| && t.timers[k].expiry <= now && t.timers[k].id != 0;
    var s := TimerStep(t, i, now, behaviour);
    if t.timers[i].expiry <= now && t.timers[i].id != 0 {
      if fuel > 0 {
        TimerChainStep(t, i, now, behaviour, h, u);
        var n := |t.timers|;
        assert i + 1 <= n < |s.tables.timers| && s.tables.timers[n].expiry <= now && s.tables.timers[n].id != 0;
        TimerChainNeverEnds(s.tables, i + 1, now, behaviour, fuel - 1, h, u);
        TimerPassUnfold(t, i, now, behaviour, fuel);
      }
    } else {
      assert i + 1 <= k;
      TimerChainNeverEnds(t, i + 1, now, behaviour, fuel, h, u);
      TimerPassUnfold(t, i, now, behaviour, fuel);
    }
  }

  /** A timer callback that registers a zero-period timer at clock `now` leaves a live timer due at `now` behind it. */
  lemma TimerChainStep(t: Tables, i: nat, now: int, behaviour: Firing -> seq<Action>, h: Handler, u: object?)
    requires |t.io| == |t.pfds| && i < |t.timers|
    requires forall f: Firing :: f.TimerFired? ==> behaviour(f) == [AddTimer(0, h, u, now)]
    requires t.timers[i].expiry <= now && t.timers[i].id != 0
    ensures var s := TimerStep(t, i, now, behaviour);
      && s.status == Completed && |s.fired| == 1 && |t.timers| < |s.tables.timers|
      && s.tables.timers[|t.timers|].expiry <= now && s.tables.timers[|t.timers|].id != 0
  {
    var t' := t.(timers := t.timers[i := t.timers[i].(id := 0)]);
    var f := TimerFired(i, t.timers[i].id, t.timers[i].callback, t.timers[i].userData);
    assert behaviour(f) == [AddTimer(0, h, u, now)];
    assert WellFormedPrefix(behaviour(f)) == 1;
    assert behaviour(f)[..1] == [AddTimer(0, h, u, now)];
    assert ApplyAll(t', [AddTimer(0, h, u, now)]) == Apply(t', AddTimer(0, h, u, now));
  }

  /** Every timer these actions register falls due after `now`: its clock reading plus period is later. */
  ghost predicate DueAfter(actions: seq<Action>, now: int) {
    forall k :: 0 <= k < |actions| && actions[k].AddTimer? ==> actions[k].clock + actions[k].period > now
  }

  /** No timer from position m on is due at `now`. */
  ghost predicate NotDueFrom(t: Tables, m: nat, now: int) {
    m <= |t.timers| && forall k :: m <= k < |t.timers| ==> t.timers[k].expiry > now
  }

  lemma {:induction false} ApplyAllNotDue(t: Tables, actions: seq<Action>, now: int, m: nat)
    requires NotDueFrom(t, m, now) && DueAfter(actions, now)
    ensures NotDueFrom(ApplyAll(t, actions), m, now)
    decreases |actions|
  {
    if actions != [] {
      var init := actions[..|actions| - 1];
      assert DueAfter(init, now) by {
        forall k | 0 <= k < |init| ensures init[k] == actions[k] { }
      }
      ApplyAllNotDue(t, init, now, m);
      var a := actions[|actions| - 1];
      assert a.AddTimer? ==> a.clock + a.period > now;
    }
  }

  /**
   * Once the clock has moved past `now`, every timer a timer callback
   * registers falls due later than `now`, so none of them fires in this pass:
   * given one unit of fuel per timer from `i` to `m`, where nothing from `m`
   * on is due, the pass never runs out of fuel.
   */
  lemma {:induction false} TimerChainEndsFrom(t: Tables, i: nat, now: int, behaviour: Firing -> seq<Action>, fuel: nat, m: nat)
    requires |t.io| == |t.pfds| && i <= |t.timers| && NotDueFrom(t, m, now)
    requires forall f: Firing :: f.TimerFired? ==> DueAfter(behaviour(f), now)
    requires fuel >= m - i
    ensures TimerPass(t, i, now, behaviour, fuel).status != OutOfFuel
    decreases fuel, |t.timers| - i
  {
    if i < |t.timers| {
      var s := TimerStep(t, i, now, behaviour);
      if t.timers[i].expiry <= now && t.timers[i].id != 0 {
        assert i < m;
        TimerPassUnfold(t, i, now, behaviour, fuel);
        var t' := t.(timers := t.timers[i := t.timers[i].(id := 0)]);
        var f := TimerFired(i, t.timers[i].id, t.timers[i].callback, t.timers[i].userData);
        var n := WellFormedPrefix(behaviour(f));
        assert DueAfter(behaviour(f)[..n], now) by {
          forall k | 0 <= k < n ensures behaviour(f)[..n][k] == behaviour(f)[k] { }
        }
        ApplyAllNotDue(t', behaviour(f)[..n], now, m);
        if s.status == Completed {
          TimerChainEndsFrom(s.tables, i + 1, now, behaviour, fuel - 1, m);
        }
      } else {
        TimerPassUnfold(t, i, now, behaviour, fuel);
        TimerChainEndsFrom(t, i + 1, now, behaviour, fuel, m);
      }
    }
  }

  /**
   * The converse of TimerChainNeverEnds: when every registration a timer
   * callback makes reads a clock past `now` (or asks for a positive period),
   * the pass completes, or aborts, within one callback per timer present
   * when it reached position `i`.
   */
  lemma TimerChainEnds(t: Tables, i: nat, now: int, behaviour: Firing -> seq<Action>, fuel: nat)
    requires |t.io| == |t.pfds| && i <= |t.timers|
    requires forall f: Firing :: f.TimerFired? ==> DueAfter(behaviour(f), now)
    requires fuel >= |t.timers| - i
    ensures TimerPass(t, i, now, behaviour, fuel).status != OutOfFuel
  {
    TimerChainEndsFrom(t, i, now, behaviour, fuel, |t.timers|);
  }

  lemma {:induction false} TimerPassKeepsIssued(t: Tables, i: nat, now: int, behaviour: Firing -> seq<Action>, fuel: nat)
    requires |t.io| == |t.pfds| && i <= |t.timers| && WellIssued(t)
    ensures WellIssued(TimerPass(t, i, now, behaviour, fuel).tables)
    decreases fuel, |t.timers| - i
  {
    if i < |t.timers| && !(t.timers[i].expiry <= now && t.timers[i].id != 0 && fuel == 0) {
      var s := TimerStep(t, i, now, behaviour);
      TimerStepEvolved(t, i, now, behaviour);
      if t.timers[i].expiry <= now && t.timers[i].id != 0 {
        ZeroTimerAt(t, i);
        RunCallbackKeepsIssued(t.(timers := t.timers[i := t.timers[i].(id := 0)]),
          TimerFired(i, t.timers[i].id, t.timers[i].callback, t.timers[i].userData), behaviour);
      }
      if s.status == Completed {
        TimerPassKeepsIssued(s.tables, i + 1, now, behaviour, if s.fired == [] then fuel else fuel - 1);
      }
    }
  }

  // ---------------------------------------------------------------------------
  // One call of app_event_poll
  // ---------------------------------------------------------------------------

  /** The tables as dispatch finds them: collected, revents cleared, then filled in by poll(). */
  function Prepared(t: Tables, condition: int -> bv16): (p: Tables)
    requires |t.io| == |t.pfds|
    ensures |p.io| == |p.pfds|
  {
    var c := Collected(t);
    c.(pfds := Polled(ClearRevents(c.pfds), condition))
  }

  /**
   * app_event_poll after poll() has reported `condition`, with `now` the clock
   * reading taken before timer dispatch: the I/O pass over the records poll() saw, then, unless a
   * callback aborted, the timer pass with at most `fuel` timer callbacks.
   */
  ghost function PollPass(t: Tables, condition: int -> bv16, now: int, behaviour: Firing -> seq<Action>, fuel: nat): (r: Step)
    requires |t.io| == |t.pfds|
    ensures |r.tables.io| == |r.tables.pfds|
  {
    DispatchPass(Prepared(t, condition), now, behaviour, fuel)
  }

  /** The two dispatch passes over tables whose pfds carry what poll() reported. */
  ghost function DispatchPass(p: Tables, now: int, behaviour: Firing -> seq<Action>, fuel: nat): (r: Step)
    requires |p.io| == |p.pfds|
    ensures |r.tables.io| == |r.tables.pfds|
  {
    var a := IoPass(p, 0, |p.io|, behaviour);
    if a.status != Completed then a
    else
      var b := TimerPass(a.tables, 0, now, behaviour, fuel);
      Step(b.tables, a.fired + b.fired, b.status)
  }

  /**
   * A timer an I/O callback registers fires in the same call once the clock,
   * read again before timer dispatch, has reached its expiry: here one ready
   * record's callback registers a timer of `period` ms at clock `clock`, and
   * with `now >= clock + period` the timer pass calls it.
   */
  lemma IoRegisteredTimerFiresSamePoll(h0: Handler, h: Handler, u: object?, period: int, clock: int, now: int, fuel: nat)
    requires period >= 0 && clock + period <= now && fuel >= 1
    ensures var p := Tables([IoRecord(1, h0, null)], [PollFd(3, POLLIN, POLLIN)], [], 1);
      var b := (f: Firing) => if f.IoFired? then [AddTimer(period, h, u, clock)] else [];
      DispatchPass(p, now, b, fuel) == Step(Tables([IoRecord(0, h0, null)], [PollFd(3, POLLIN, POLLIN)],
                                                   [TimerRecord(0, h, u, clock + period)], 2),
                                            [IoFired(0, 1, h0, null, POLLIN), TimerFired(0, 2, h, u)], Completed)
  {
    var p := Tables([IoRecord(1, h0, null)], [PollFd(3, POLLIN, POLLIN)], [], 1);
    var b := (f: Firing) => if f.IoFired? then [AddTimer(period, h, u, clock)] else [];
    var p' := p.(io := [IoRecord(0, h0, null)]);
    var add := [AddTimer(period, h, u, clock)];
    assert WellFormedPrefix(add) == 1;
    assert add[..1] == add;
    var a := Tables([IoRecord(0, h0, null)], [PollFd(3, POLLIN, POLLIN)], [TimerRecord(2, h, u, clock + period)], 2);
    assert ApplyAll(p', add) == a by {
      assert add[..0] == [];
    }
    var f := IoFired(0, 1, h0, null, POLLIN);
    assert p.io[0 := p.io[0].(id := 0)] == p'.io;
    assert b(f) == add;
    assert RunCallback(p', f, b) == Step(a, [f], Completed);
    assert IoStep(p, 0, b) == Step(a, [f], Completed);
    assert IoPass(p, 0, 1, b) == Step(a, [IoFired(0, 1, h0, null, POLLIN)], Completed);
    var a' := a.(timers := [TimerRecord(0, h, u, clock + period)]);
    assert WellFormedPrefix([]) == 0;
    var g := TimerFired(0, 2, h, u);
    assert a.timers[0 := a.timers[0].(id := 0)] == a'.timers;
    assert b(g) == [];
    assert RunCallback(a', g, b) == Step(a', [g], Completed);
    assert TimerStep(a, 0, now, b) == Step(a', [g], Completed);
    assert TimerPass(a, 0, now, b, fuel) == Step(a', [TimerFired(0, 2, h, u)], Completed);
  }

  /**
   * What one call dispatches: I/O callbacks first, each for a record that was
   * live after collection and whose descriptor poll() reported ready, with
   * the conditions it asked for (plus error, hang-up, invalid) as revents; then
   * timer callbacks, each for a live timer due at `now`. Within each kind,
   * positions increase, so no record fires twice, and there are at most
   * `fuel` timer callbacks.
   */
  lemma PollPassFired(t: Tables, condition: int -> bv16, now: int, behaviour: Firing -> seq<Action>, fuel: nat)
    requires |t.io| == |t.pfds|
    ensures var p := Prepared(t, condition);
      var r := PollPass(t, condition, now, behaviour, fuel);
      exists n :: 0 <= n <= |r.fired|
        && IoFiredAllFrom(p, r.fired[..n], 0) && Increasing(r.fired[..n])
        && TimerFiredAllFrom(p, r.fired[n..], 0, now) && Increasing(r.fired[n..]) && |r.fired[n..]| <= fuel
        && (forall j :: 0 <= j < n ==>
              r.fired[j].revents == Revents(condition(p.pfds[r.fired[j].index].fd), p.pfds[r.fired[j].index].events))
  {
    var p := Prepared(t, condition);
    var a := IoPass(p, 0, |p.io|, behaviour);
    var r := PollPass(t, condition, now, behaviour, fuel);
    IoPassFired(p, 0, |p.io|, behaviour);
    var n := |a.fired|;
    if a.status == Completed {
      IoPassEvolved(p, 0, |p.io|, behaviour);
      var b := TimerPass(a.tables, 0, now, behaviour, fuel);
      TimerPassFired(a.tables, 0, now, behaviour, fuel);
      TimerPassFuel(a.tables, 0, now, behaviour, fuel);
      assert r.fired[..n] == a.fired && r.fired[n..] == b.fired;
      forall j | 0 <= j < |b.fired| && b.fired[j].index < |p.timers| ensures TimerFiredFrom(p, b.fired[j], now) {
        TimerFiredFromEarlier(p, a.tables, b.fired[j], now);
      }
    } else {
      assert r.fired[..n] == a.fired && r.fired[n..] == [];
    }
  }

  /**
   * One-shot: when the call completes, no record that is ready is still live
   * and no timer that is due is still live, so nothing can fire again until
   * it is registered anew.
   */
  lemma PollPassOneShot(t: Tables, condition: int -> bv16, now: int, behaviour: Firing -> seq<Action>, fuel: nat)
    requires |t.io| == |t.pfds|
    ensures var r := PollPass(t, condition, now, behaviour, fuel);
      r.status == Completed ==>
        && (forall k :: 0 <= k < |r.tables.io| ==> r.tables.pfds[k].revents != 0 ==> r.tables.io[k].id == 0)
        && (forall k :: 0 <= k < |r.tables.timers| ==> r.tables.timers[k].expiry <= now ==> r.tables.timers[k].id == 0)
  {
    var p := Prepared(t, condition);
    var a := IoPass(p, 0, |p.io|, behaviour);
    if a.status == Completed {
      IoPassExpends(p, 0, |p.io|, behaviour);
      var b := TimerPass(a.tables, 0, now, behaviour, fuel);
      TimerPassExpires(a.tables, 0, now, behaviour, fuel);
      TimerPassEvolved(a.tables, 0, now, behaviour, fuel);
      EvolvedKeepsExpended(a.tables, b.tables, 0, |a.tables.io|);
    }
  }

  /** A call keeps the ID invariant: IDs stay bounded by the counter and unique across both tables. */
  lemma PollPassKeepsIssued(t: Tables, condition: int -> bv16, now: int, behaviour: Firing -> seq<Action>, fuel: nat)
    requires WellIssued(t)
    ensures WellIssued(PollPass(t, condition, now, behaviour, fuel).tables)
  {
    GcIoKeepsIssued(t);
    GcTimerKeepsIssued(GcIoTables(t));
    var p := Prepared(t, condition);
    assert WellIssued(p);
    IoPassKeepsIssued(p, 0, |p.io|, behaviour);
    var a := IoPass(p, 0, |p.io|, behaviour);
    if a.status == Completed {
      TimerPassKeepsIssued(a.tables, 0, now, behaviour, fuel);
    }
  }
}
