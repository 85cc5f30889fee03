/*
 * The reactor's tables as one value, what callbacks may do to them, and the
 * table-level effect of collection, polling and marking a record expended.
 */
module EventTables {
  import opened Common
  import opened EventSpec

  // ---------------------------------------------------------------------------
  // Changes callbacks may make while the reactor dispatches
  // ---------------------------------------------------------------------------

  /**
   * What a callback does to the reactor, in place of arbitrary code: a call of
   * app_event_register_io, app_event_unregister_io, app_event_register_timer
   * or app_event_unregister_timer. A timer registration carries the clock
   * reading app_event_register_timer takes for it (src/app-event.c:139): the
   * clock is an input, read anew by every registration.
   */
  datatype Action =
    | AddIo(fd: int, events: bv16, callback: Handler, userData: object?)
    | DropIo(id: nat)
    | AddTimer(period: int, callback: Handler, userData: object?, clock: int)
    | DropTimer(id: nat)

  /** The actions a callback may perform without tripping one of the reactor's assertions. */
  predicate WellFormed(a: Action) {
    match a
    case AddIo(fd, events, _, _) => fd >= 0 && events != 0
    case AddTimer(period, _, _, _) => period >= 0
    case _ => true
  }

  /** One dispatched callback: the record's position, its ID before it was zeroed, and what it was called with. */
  datatype Firing =
    | IoFired(index: nat, id: nat, callback: Handler, userData: object?, revents: bv16)
    | TimerFired(index: nat, id: nat, callback: Handler, userData: object?)

  /** The contents of the reactor's tables and its ID counter. */
  datatype Tables = Tables(io: seq<IoRecord>, pfds: seq<PollFd>, timers: seq<TimerRecord>, counter: nat)

  /**
   * The reactor's invariant on IDs: every ID was drawn from the counter, and a
   * non-zero ID names one record in one table only.
   */
  ghost predicate WellIssued(t: Tables) {
    && IdsBounded(t)
    && (forall i, j :: 0 <= i < |t.io| && 0 <= j < |t.io| && i != j && t.io[i].id != 0 ==> t.io[i].id != t.io[j].id)
    && (forall i, j :: 0 <= i < |t.timers| && 0 <= j < |t.timers| && i != j && t.timers[i].id != 0 ==>
          t.timers[i].id != t.timers[j].id)
    && (forall i, j :: 0 <= i < |t.io| && 0 <= j < |t.timers| && t.io[i].id != 0 ==> t.io[i].id != t.timers[j].id)
  }

  /** Every ID in the tables came from the counter; records and pfds pair up. */
  ghost predicate IdsBounded(t: Tables) {
    && |t.io| == |t.pfds|
    && (forall k :: 0 <= k < |t.io| ==> t.io[k].id <= t.counter)
    && (forall k :: 0 <= k < |t.timers| ==> t.timers[k].id <= t.counter)
  }

  /** The tables after one action; registration draws the next ID from the shared counter, and a timer is due `period` ms after its own clock reading. */
  function Apply(t: Tables, a: Action): Tables {
    match a
    case AddIo(fd, events, callback, userData) =>
      t.(io := t.io + [IoRecord(t.counter + 1, callback, userData)],
         pfds := t.pfds + [PollFd(fd, events, 0)],
         counter := t.counter + 1)
    case DropIo(id) => t.(io := ZeroFirst(t.io, id))
    case AddTimer(period, callback, userData, clock) =>
      t.(timers := t.timers + [TimerRecord(t.counter + 1, callback, userData, clock + period)],
         counter := t.counter + 1)
    case DropTimer(id) => t.(timers := ZeroAll(t.timers, id))
  }

  /** The tables after a sequence of actions, applied in order. */
  function ApplyAll(t: Tables, actions: seq<Action>): (r: Tables)
    ensures |t.io| == |t.pfds| ==> |r.io| == |r.pfds|
    ensures |t.io| <= |r.io| && |t.timers| <= |r.timers|
    decreases |actions|
  {
    if actions == [] then t
    else Apply(ApplyAll(t, actions[..|actions| - 1]), actions[|actions| - 1])
  }

  /** How many actions a callback gets to perform: all of them up to the first that trips an assertion. */
  function WellFormedPrefix(actions: seq<Action>): (n: nat)
    ensures n <= |actions|
    ensures forall k :: 0 <= k < n ==> WellFormed(actions[k])
    ensures n < |actions| ==> !WellFormed(actions[n])
  {
    if actions == [] || !WellFormed(actions[0]) then 0 else 1 + WellFormedPrefix(actions[1..])
  }

  /**
   * A registration returns an ID no record held before, and every action keeps
   * IDs unique; unregistering never touches the pfds.
   */
  lemma ApplyKeepsIssued(t: Tables, a: Action)
    requires WellIssued(t)
    ensures WellIssued(Apply(t, a))
  {
    ApplyKeepsBounded(t, a);
    match a
    case AddIo(_, _, _, _) => AddKeepsIssued(t, a);
    case AddTimer(_, _, _, _) => AddKeepsIssued(t, a);
    case DropIo(_) => DropKeepsIssued(t, a);
    case DropTimer(_) => DropKeepsIssued(t, a);
  }

  /** A registration takes an ID above every ID in use. */
  lemma AddKeepsIssued(t: Tables, a: Action)
    requires WellIssued(t) && (a.AddIo? || a.AddTimer?)
    ensures WellIssued(Apply(t, a))
  {
    var t' := Apply(t, a);
    assert forall k :: 0 <= k < |t.io| ==> t'.io[k] == t.io[k];
    assert forall k :: 0 <= k < |t.timers| ==> t'.timers[k] == t.timers[k];
  }

  /** Unregistering only turns IDs into 0. */
  lemma DropKeepsIssued(t: Tables, a: Action)
    requires WellIssued(t) && (a.DropIo? || a.DropTimer?)
    ensures WellIssued(Apply(t, a))
  {
    var t' := Apply(t, a);
    assert forall k :: 0 <= k < |t.io| && t'.io[k].id != 0 ==> t'.io[k] == t.io[k];
    assert forall k :: 0 <= k < |t.timers| && t'.timers[k].id != 0 ==> t'.timers[k] == t.timers[k];
    ApplyKeepsBounded(t, a);
  }

  /** The next ID is one no record holds, and every action keeps the IDs within the counter. */
  lemma ApplyKeepsBounded(t: Tables, a: Action)
    requires IdsBounded(t)
    ensures IdsBounded(Apply(t, a))
    ensures t.counter + 1 !in IoIds(t.io) && t.counter + 1 !in TimerIds(t.timers)
  {
  }

  lemma {:induction false} ApplyAllKeepsBounded(t: Tables, actions: seq<Action>)
    requires IdsBounded(t)
    ensures IdsBounded(ApplyAll(t, actions))
    decreases |actions|
  {
    if actions != [] {
      ApplyAllKeepsBounded(t, actions[..|actions| - 1]);
      ApplyKeepsBounded(ApplyAll(t, actions[..|actions| - 1]), actions[|actions| - 1]);
    }
  }

  lemma {:induction false} ApplyAllKeepsIssued(t: Tables, actions: seq<Action>)
    requires WellIssued(t)
    ensures WellIssued(ApplyAll(t, actions))
    decreases |actions|
  {
    if actions != [] {
      ApplyAllKeepsIssued(t, actions[..|actions| - 1]);
      ApplyKeepsIssued(ApplyAll(t, actions[..|actions| - 1]), actions[|actions| - 1]);
    }
  }

  /**
   * `t1` can follow `t0` through registrations and unregistrations: existing
   * records keep their place and contents except that their ID may become 0,
   * and new records are appended at the end with fresh IDs, I/O records with
   * `revents == 0`.
   */
  ghost predicate Evolved(t0: Tables, t1: Tables) {
    && t0.counter <= t1.counter
    && |t0.pfds| == |t0.io| <= |t1.io| == |t1.pfds|
    && |t0.timers| <= |t1.timers|
    && (forall k :: 0 <= k < |t0.io| ==> t1.io[k] == t0.io[k] || t1.io[k] == t0.io[k].(id := 0))
    && (forall k :: 0 <= k < |t0.io| ==> t1.pfds[k] == t0.pfds[k])
    && (forall k :: |t0.io| <= k < |t1.io| ==> t1.pfds[k].revents == 0)
    && (forall k :: |t0.io| <= k < |t1.io| ==> t1.io[k].id == 0 || t1.io[k].id > t0.counter)
    && (forall k :: 0 <= k < |t0.timers| ==>
          t1.timers[k] == t0.timers[k] || t1.timers[k] == t0.timers[k].(id := 0))
    && (forall k :: |t0.timers| <= k < |t1.timers| ==>
          t1.timers[k].id == 0 || t1.timers[k].id > t0.counter)
  }

  lemma EvolvedReflexive(t: Tables)
    requires |t.io| == |t.pfds|
    ensures Evolved(t, t)
  {
  }

  lemma EvolvedTransitive(t0: Tables, t1: Tables, t2: Tables)
    requires Evolved(t0, t1) && Evolved(t1, t2)
    ensures Evolved(t0, t2)
  {
    forall k | 0 <= k < |t0.io| ensures t2.io[k] == t0.io[k] || t2.io[k] == t0.io[k].(id := 0) {
      assert t1.io[k] == t0.io[k] || t1.io[k] == t0.io[k].(id := 0);
    }
    forall k | 0 <= k < |t0.timers| ensures t2.timers[k] == t0.timers[k] || t2.timers[k] == t0.timers[k].(id := 0) {
      assert t1.timers[k] == t0.timers[k] || t1.timers[k] == t0.timers[k].(id := 0);
    }
  }

  /** What a callback may do to the tables is bounded by Evolved: it cannot move, revive or rewrite a record. */
  lemma {:induction false} ApplyAllEvolved(t: Tables, actions: seq<Action>)
    requires |t.io| == |t.pfds|
    requires forall k :: 0 <= k < |actions| ==> WellFormed(actions[k])
    ensures Evolved(t, ApplyAll(t, actions))
    decreases |actions|
  {
    if actions == [] {
      EvolvedReflexive(t);
    } else {
      var init := actions[..|actions| - 1];
      var t' := ApplyAll(t, init);
      ApplyAllEvolved(t, init);
      assert WellFormed(actions[|actions| - 1]);
      assert Evolved(t', Apply(t', actions[|actions| - 1]));
      EvolvedTransitive(t, t', ApplyAll(t, actions));
    }
  }

  /** The tables after gc_io: surviving records and their pfds, moved together. */
  function GcIoTables(t: Tables): (g: Tables)
    requires |t.io| == |t.pfds|
    ensures |g.io| == |g.pfds|
    ensures g.timers == t.timers && g.counter == t.counter
  {
    var o := GcOrder(IoIds(t.io));
    GcOrderSurvivors(IoIds(t.io));
    t.(io := Select(t.io, o), pfds := Select(t.pfds, o))
  }

  /** The tables after gc_timers. */
  function GcTimerTables(t: Tables): (g: Tables)
    ensures g.io == t.io && g.pfds == t.pfds && g.counter == t.counter
  {
    var o := GcOrder(TimerIds(t.timers));
    GcOrderSurvivors(TimerIds(t.timers));
    t.(timers := Select(t.timers, o))
  }

  /** Collection keeps the ID invariant, and afterwards no record has ID 0. */
  lemma GcIoKeepsIssued(t: Tables)
    requires IdsBounded(t)
    ensures var g := GcIoTables(t);
      && IdsBounded(g) && (WellIssued(t) ==> WellIssued(g)) && g.timers == t.timers && g.counter == t.counter
      && (forall k :: 0 <= k < |g.io| ==> g.io[k].id != 0)
  {
    var o := GcOrder(IoIds(t.io));
    GcOrderSurvivors(IoIds(t.io));
    var g := GcIoTables(t);
    assert forall k :: 0 <= k < |g.io| ==> g.io[k] == t.io[o[k]];
    if WellIssued(t) {
      forall i, j | 0 <= i < |g.io| && 0 <= j < |g.io| && i != j && g.io[i].id != 0
        ensures g.io[i].id != g.io[j].id
      {
        assert o[i] != o[j];
      }
    }
  }

  /** Every live record survives collection together with its own pfd. */
  lemma GcIoKeepsLive(t: Tables)
    requires |t.io| == |t.pfds|
    ensures var g := GcIoTables(t);
      forall j :: 0 <= j < |t.io| && t.io[j].id != 0 ==>
        exists k :: 0 <= k < |g.io| && g.io[k] == t.io[j] && g.pfds[k] == t.pfds[j]
  {
    var o := GcOrder(IoIds(t.io));
    GcOrderSurvivors(IoIds(t.io));
    var g := GcIoTables(t);
    forall j | 0 <= j < |t.io| && t.io[j].id != 0
      ensures exists k :: 0 <= k < |g.io| && g.io[k] == t.io[j] && g.pfds[k] == t.pfds[j]
    {
      assert IoIds(t.io)[j] != 0;
      var k :| 0 <= k < |o| && o[k] == j;
      assert g.io[k] == t.io[j];
    }
  }

  /** The records left by gc_io are a permutation of the live records in storage order. */
  lemma GcIoPermutes(t: Tables)
    requires |t.io| == |t.pfds|
    ensures multiset(GcIoTables(t).io) == multiset(Select(t.io, LiveIndices(IoIds(t.io))))
  {
    GcKeepsLiveRecords(t.io, IoIds(t.io));
  }

  lemma GcTimerKeepsIssued(t: Tables)
    requires IdsBounded(t)
    ensures var g := GcTimerTables(t);
      && IdsBounded(g) && (WellIssued(t) ==> WellIssued(g)) && g.io == t.io && g.pfds == t.pfds && g.counter == t.counter
      && (forall k :: 0 <= k < |g.timers| ==> g.timers[k].id != 0)
  {
    var o := GcOrder(TimerIds(t.timers));
    GcOrderSurvivors(TimerIds(t.timers));
    var g := GcTimerTables(t);
    assert forall k :: 0 <= k < |g.timers| ==> g.timers[k] == t.timers[o[k]];
    if WellIssued(t) {
      forall i, j | 0 <= i < |g.timers| && 0 <= j < |g.timers| && i != j && g.timers[i].id != 0
        ensures g.timers[i].id != g.timers[j].id
      {
        assert o[i] != o[j];
      }
    }
  }

  lemma GcTimerKeepsLive(t: Tables)
    ensures var g := GcTimerTables(t);
      forall j :: 0 <= j < |t.timers| && t.timers[j].id != 0 ==>
        exists k :: 0 <= k < |g.timers| && g.timers[k] == t.timers[j]
  {
    var o := GcOrder(TimerIds(t.timers));
    GcOrderSurvivors(TimerIds(t.timers));
    var g := GcTimerTables(t);
    forall j | 0 <= j < |t.timers| && t.timers[j].id != 0
      ensures exists k :: 0 <= k < |g.timers| && g.timers[k] == t.timers[j]
    {
      assert TimerIds(t.timers)[j] != 0;
      var k :| 0 <= k < |o| && o[k] == j;
      assert g.timers[k] == t.timers[j];
    }
  }

  lemma GcTimerPermutes(t: Tables)
    ensures multiset(GcTimerTables(t).timers) == multiset(Select(t.timers, LiveIndices(TimerIds(t.timers))))
  {
    GcKeepsLiveRecords(t.timers, TimerIds(t.timers));
  }

  /** unregister_io and unregister_timer do nothing when handed an ID of the other kind. */
  lemma UnregisterOtherKind(t: Tables, id: nat)
    requires WellIssued(t) && id != 0
    ensures id in TimerIds(t.timers) ==> ZeroFirst(t.io, id) == t.io
    ensures id in IoIds(t.io) ==> ZeroAll(t.timers, id) == t.timers
  {
    if id in TimerIds(t.timers) {
      UnknownIdIsNoOp(t.io, id);
    }
  }

  // ---------------------------------------------------------------------------
  // One pass of app_event_poll
  // ---------------------------------------------------------------------------

  /** Both collections, in the order app_event_poll runs them. */
  function Collected(t: Tables): Tables
    requires |t.io| == |t.pfds|
  {
    GcTimerTables(GcIoTables(t))
  }

  /** The pfds after the reset loop of app_event_poll: every revents is 0, nothing else changes. */
  function ClearRevents(pfds: seq<PollFd>): (r: seq<PollFd>)
    ensures |r| == |pfds|
    ensures forall k :: 0 <= k < |pfds| ==> r[k] == pfds[k].(revents := 0)
  {
    seq(|pfds|, k requires 0 <= k < |pfds| => pfds[k].(revents := 0))
  }

  /** The pfds after poll() returns, given which conditions hold on each descriptor. */
  function Polled(pfds: seq<PollFd>, condition: int -> bv16): (r: seq<PollFd>)
    ensures |r| == |pfds|
    ensures forall k :: 0 <= k < |pfds| ==> r[k] == pfds[k].(revents := Revents(condition(pfds[k].fd), pfds[k].events))
  {
    seq(|pfds|, k requires 0 <= k < |pfds| => pfds[k].(revents := Revents(condition(pfds[k].fd), pfds[k].events)))
  }

  /** `f` is the call dispatch makes for the record at f.index of `t`: live, ready, called with its own callback, data and revents. */
  ghost predicate IoFiredFrom(t: Tables, f: Firing) {
    && f.IoFired?
    && f.index < |t.io| == |t.pfds|
    && f.id != 0
    && t.io[f.index] == IoRecord(f.id, f.callback, f.userData)
    && f.revents == t.pfds[f.index].revents != 0
  }

  /** Dispatch marks a record expended before calling it; that keeps the ID invariant and is an allowed evolution. */
  lemma ZeroIoAt(t: Tables, i: nat)
    requires IdsBounded(t) && i < |t.io|
    ensures var t' := t.(io := t.io[i := t.io[i].(id := 0)]);
      IdsBounded(t') && (WellIssued(t) ==> WellIssued(t')) && Evolved(t, t')
  {
    var t' := t.(io := t.io[i := t.io[i].(id := 0)]);
    if WellIssued(t) {
      ZeroIoKeepsUnique(t, i);
    }
  }

  lemma ZeroIoKeepsUnique(t: Tables, i: nat)
    requires WellIssued(t) && i < |t.io|
    ensures WellIssued(t.(io := t.io[i := t.io[i].(id := 0)]))
  {
    var t' := t.(io := t.io[i := t.io[i].(id := 0)]);
    forall a, b | 0 <= a < |t'.io| && 0 <= b < |t'.io| && a != b && t'.io[a].id != 0
      ensures t'.io[a].id != t'.io[b].id
    {
      assert t'.io[a] == t.io[a];
    }
    forall a, b | 0 <= a < |t'.io| && 0 <= b < |t'.timers| && t'.io[a].id != 0
      ensures t'.io[a].id != t'.timers[b].id
    {
      assert t'.io[a] == t.io[a];
    }
  }

  lemma ZeroTimerAt(t: Tables, i: nat)
    requires IdsBounded(t) && i < |t.timers|
    ensures var t' := t.(timers := t.timers[i := t.timers[i].(id := 0)]);
      IdsBounded(t') && (WellIssued(t) ==> WellIssued(t')) && Evolved(t, t')
  {
    var t' := t.(timers := t.timers[i := t.timers[i].(id := 0)]);
    if WellIssued(t) {
      forall a, b | 0 <= a < |t'.timers| && 0 <= b < |t'.timers| && a != b && t'.timers[a].id != 0
        ensures t'.timers[a].id != t'.timers[b].id
      {
        assert t'.timers[a] == t.timers[a];
      }
    }
  }

  /** `f` is the call timer dispatch makes for the timer at f.index of `t`: live, due at `now`, with its own callback and data. */
  ghost predicate TimerFiredFrom(t: Tables, f: Firing, now: int) {
    && f.TimerFired?
    && f.index < |t.timers|
    && f.id != 0
    && t.timers[f.index].id == f.id
    && t.timers[f.index].callback == f.callback
    && t.timers[f.index].userData == f.userData
    && t.timers[f.index].expiry <= now
  }

  /** After an allowed evolution, a ready record that was expended stays expended: pfds of old records are untouched and IDs never come back. */
  lemma EvolvedKeepsExpended(t1: Tables, t2: Tables, lo: nat, hi: nat)
    requires Evolved(t1, t2) && lo <= hi <= |t1.io|
    requires forall k :: lo <= k < hi ==> t1.pfds[k].revents != 0 ==> t1.io[k].id == 0
    ensures forall k :: lo <= k < hi ==> t2.pfds[k].revents != 0 ==> t2.io[k].id == 0
  {
    forall k | lo <= k < hi && t2.pfds[k].revents != 0 ensures t2.io[k].id == 0 {
      assert t2.pfds[k] == t1.pfds[k];
    }
  }

  /** After an allowed evolution, a due timer that was expended stays expended. */
  lemma EvolvedKeepsExpendedTimers(t1: Tables, t2: Tables, now: int, lo: nat, hi: nat)
    requires Evolved(t1, t2) && lo <= hi <= |t1.timers|
    requires forall k :: lo <= k < hi ==> t1.timers[k].expiry <= now ==> t1.timers[k].id == 0
    ensures forall k :: lo <= k < hi ==> t2.timers[k].expiry <= now ==> t2.timers[k].id == 0
  {
  }

  /** A record dispatched from evolved tables was live, unchanged, and just as ready in the original ones. */
  lemma IoFiredFromEarlier(t0: Tables, t1: Tables, f: Firing)
    requires Evolved(t0, t1) && IoFiredFrom(t1, f)
    ensures IoFiredFrom(t0, f)
  {
    assert f.index < |t0.io|;
  }

  /** A timer dispatched from evolved tables, at a position the original tables had, was live and unchanged there. */
  lemma TimerFiredFromEarlier(t0: Tables, t1: Tables, f: Firing, now: int)
    requires Evolved(t0, t1) && TimerFiredFrom(t1, f, now) && f.index < |t0.timers|
    ensures TimerFiredFrom(t0, f, now)
  {
    assert t1.timers[f.index] == t0.timers[f.index];
  }
}
