/*
 * Values and specification functions of the event reactor (src/app-event.c):
 * the I/O and timer records, the swap-remove garbage collection written as a
 * function of the record IDs, lazy unregistration, the poll timeout, and the
 * way the tables may change while callbacks run.
 */
module EventSpec {
  import opened Common

  // Event bits of <poll.h> on Linux; APP_EVENT_IN/OUT/ERR/HUP are the first four.
  const POLLIN: bv16 := 0x001
  const POLLOUT: bv16 := 0x004
  const POLLERR: bv16 := 0x008
  const POLLHUP: bv16 := 0x010
  const POLLNVAL: bv16 := 0x020

  /** A callback function pointer, known by the name of the C function it points to. */
  datatype Handler = Handler(name: string)

  /** One registered I/O interest; ID 0 marks a record that is expended or unregistered. */
  datatype IoRecord = IoRecord(id: nat, callback: Handler, userData: object?)

  /** The `struct pollfd` paired index-for-index with an I/O record. */
  datatype PollFd = PollFd(fd: int, events: bv16, revents: bv16)

  /** One registered timer, due at the absolute clock value `expiry` (milliseconds). */
  datatype TimerRecord = TimerRecord(id: nat, callback: Handler, userData: object?, expiry: int)

  function IoIds(recs: seq<IoRecord>): (ids: seq<nat>)
    ensures |ids| == |recs|
    ensures forall k :: 0 <= k < |recs| ==> ids[k] == recs[k].id
  {
    seq(|recs|, k requires 0 <= k < |recs| => recs[k].id)
  }

  function TimerIds(timers: seq<TimerRecord>): (ids: seq<nat>)
    ensures |ids| == |timers|
    ensures forall k :: 0 <= k < |timers| ==> ids[k] == timers[k].id
  {
    seq(|timers|, k requires 0 <= k < |timers| => timers[k].id)
  }

  /** Every ID came from a counter now at `counter`, and no non-zero ID appears twice. */
  ghost predicate IdsIssued(ids: seq<nat>, counter: nat) {
    && (forall k :: 0 <= k < |ids| ==> ids[k] <= counter)
    && UniqueNonZero(ids)
  }

  ghost predicate UniqueNonZero(ids: seq<nat>) {
    forall i, j :: 0 <= i < j < |ids| && ids[i] != 0 ==> ids[i] != ids[j]
  }

  ghost predicate Distinct(s: seq<nat>) {
    forall i, j :: 0 <= i < j < |s| ==> s[i] != s[j]
  }

  ghost predicate Below(s: seq<nat>, n: nat) {
    forall k :: 0 <= k < |s| ==> s[k] < n
  }

  // ---------------------------------------------------------------------------
  // Garbage collection (gc_io, gc_timers)
  // ---------------------------------------------------------------------------

  function Range(n: nat): (r: seq<nat>)
    ensures |r| == n
    ensures forall k :: 0 <= k < n ==> r[k] == k
  {
    seq(n, k => k)
  }

  /** The records `idx` picks out of `s`, in the order of `idx`. */
  function Select<T>(s: seq<T>, idx: seq<nat>): (r: seq<T>)
    requires Below(idx, |s|)
    ensures |r| == |idx|
    ensures forall k :: 0 <= k < |idx| ==> r[k] == s[idx[k]]
  {
    seq(|idx|, k requires 0 <= k < |idx| => s[idx[k]])
  }

  /**
   * The swap-remove loop of gc_io/gc_timers run on positions: `idx[k]` is the
   * original position of the record now stored at k. A record whose ID is 0 is
   * overwritten by the last one and the count drops; otherwise `i` advances.
   */
  function SwapRemove(ids: seq<nat>, idx: seq<nat>, i: nat): seq<nat>
    requires Below(idx, |ids|)
    decreases 2 * |idx| - i
  {
    if i >= |idx| then idx
    else if ids[idx[i]] == 0 then SwapRemove(ids, SwapOut(idx, i), i)
    else SwapRemove(ids, idx, i + 1)
  }

  /** The positions after one swap-remove at i: the last position takes i's place and the list shrinks. */
  function SwapOut(idx: seq<nat>, i: nat): (r: seq<nat>)
    requires i < |idx|
    ensures |r| == |idx| - 1
  {
    idx[i := idx[|idx| - 1]][..|idx| - 1]
  }

  /** Swap-removing a position and then selecting is selecting and then swap-removing the record. */
  lemma SelectSwapOut<T>(s: seq<T>, idx: seq<nat>, i: nat)
    requires Below(idx, |s|) && i < |idx|
    ensures Below(SwapOut(idx, i), |s|)
    ensures Select(s, SwapOut(idx, i)) == Select(s, idx)[i := Select(s, idx)[|idx| - 1]][..|idx| - 1]
  {
  }

  /** Original positions of the records that survive collection, in their new storage order. */
  function GcOrder(ids: seq<nat>): seq<nat> {
    SwapRemove(ids, Range(|ids|), 0)
  }

  lemma {:induction false} SwapRemoveSurvivors(ids: seq<nat>, idx: seq<nat>, i: nat)
    requires Below(idx, |ids|) && Distinct(idx) && i <= |idx|
    requires forall k :: 0 <= k < i ==> ids[idx[k]] != 0
    ensures var r := SwapRemove(ids, idx, i);
      && Below(r, |ids|) && Distinct(r)
      && (forall k :: 0 <= k < |r| ==> ids[r[k]] != 0)
      && (forall x :: x in r <==> x in idx && ids[x] != 0)
    decreases 2 * |idx| - i
  {
    if i < |idx| {
      if ids[idx[i]] == 0 {
        var last := |idx| - 1;
        var idx' := SwapOut(idx, i);
        forall x ensures x in idx' <==> x in idx && x != idx[i] {
          if x in idx' {
            var k :| 0 <= k < last && idx'[k] == x;
            assert x == idx[if k == i then last else k];
            if k == i { assert idx[last] != idx[i]; } else { assert idx[k] != idx[i]; }
          }
          if x in idx && x != idx[i] {
            var k :| 0 <= k < |idx| && idx[k] == x;
            if k == last { assert idx'[i] == x; } else { assert idx'[k] == x; }
          }
        }
        SwapRemoveSurvivors(ids, idx', i);
      } else {
        SwapRemoveSurvivors(ids, idx, i + 1);
      }
    }
  }

  /**
   * Collection keeps exactly the records with a non-zero ID, each once: the
   * survivors are those positions, with no repeats and nothing else.
   */
  lemma GcOrderSurvivors(ids: seq<nat>)
    ensures var o := GcOrder(ids);
      && Below(o, |ids|) && Distinct(o)
      && (forall k :: 0 <= k < |o| ==> ids[o[k]] != 0)
      && (forall j :: 0 <= j < |ids| && ids[j] != 0 ==> j in o)
  {
    SwapRemoveSurvivors(ids, Range(|ids|), 0);
    forall j | 0 <= j < |ids| && ids[j] != 0 ensures j in GcOrder(ids) {
      assert Range(|ids|)[j] == j;
    }
  }

  /** Positions of the records with a non-zero ID, in storage order: the live records. */
  function LiveIndices(ids: seq<nat>): (r: seq<nat>)
    ensures Below(r, |ids|)
  {
    if ids == [] then []
    else if ids[|ids| - 1] == 0 then LiveIndices(ids[..|ids| - 1])
    else LiveIndices(ids[..|ids| - 1]) + [|ids| - 1]
  }

  lemma {:induction false} LiveIndicesSpec(ids: seq<nat>)
    ensures Distinct(LiveIndices(ids))
    ensures forall x: nat :: x in LiveIndices(ids) <==> x < |ids| && ids[x] != 0
  {
    if ids != [] {
      var init := ids[..|ids| - 1];
      LiveIndicesSpec(init);
      forall x: nat ensures x < |init| && init[x] != 0 <==> x < |ids| - 1 && ids[x] != 0 {
      }
    }
  }

  lemma {:induction false} DistinctCount(a: seq<nat>, x: nat)
    requires Distinct(a)
    ensures multiset(a)[x] == if x in a then 1 else 0
  {
    if a != [] {
      assert a == [a[0]] + a[1..];
      DistinctCount(a[1..], x);
    }
  }

  lemma IndexOf(b: seq<nat>, x: nat) returns (p: nat)
    requires x in multiset(b)
    ensures p < |b| && b[p] == x
  {
    assert x in b;
    p :| 0 <= p < |b| && b[p] == x;
  }

  lemma RemoveAt(b: seq<nat>, p: nat)
    requires p < |b|
    ensures multiset(b[..p] + b[p + 1..]) == multiset(b) - multiset{b[p]}
  {
    assert b == b[..p] + [b[p]] + b[p + 1..];
  }

  lemma SelectRemoveAt<T>(s: seq<T>, b: seq<nat>, p: nat)
    requires Below(b, |s|) && p < |b|
    ensures Below(b[..p] + b[p + 1..], |s|)
    ensures multiset(Select(s, b)) == multiset(Select(s, b[..p] + b[p + 1..])) + multiset{s[b[p]]}
  {
    var b' := b[..p] + b[p + 1..];
    assert Select(s, b) == Select(s, b[..p]) + [s[b[p]]] + Select(s, b[p + 1..]);
    assert Select(s, b') == Select(s, b[..p]) + Select(s, b[p + 1..]);
  }

  /** Picking the same positions in another order picks the same multiset of records. */
  lemma {:induction false} SelectPermutation<T>(s: seq<T>, a: seq<nat>, b: seq<nat>)
    requires Below(a, |s|) && Below(b, |s|)
    requires multiset(a) == multiset(b)
    ensures multiset(Select(s, a)) == multiset(Select(s, b))
    decreases |a|
  {
    if a != [] {
      var p := IndexOf(b, a[0]);
      var b' := b[..p] + b[p + 1..];
      assert multiset(a[1..]) == multiset(b') && Below(b', |s|) by {
        RemoveAt(a, 0);
        RemoveAt(b, p);
        assert a[..0] + a[1..] == a[1..];
        SelectRemoveAt(s, b, p);
      }
      SelectPermutation(s, a[1..], b');
      SelectPermutationStep(s, a, b, p);
    }
  }

  lemma SelectPermutationStep<T>(s: seq<T>, a: seq<nat>, b: seq<nat>, p: nat)
    requires Below(a, |s|) && Below(b, |s|)
    requires a != [] && p < |b| && b[p] == a[0]
    requires multiset(Select(s, a[1..])) == multiset(Select(s, b[..p] + b[p + 1..]))
    ensures multiset(Select(s, a)) == multiset(Select(s, b))
  {
    SelectRemoveAt(s, a, 0);
    SelectRemoveAt(s, b, p);
    assert a[..0] + a[1..] == a[1..];
  }

  /**
   * gc_io and gc_timers leave the multiset of live records unchanged: the
   * records they keep (in swap-remove order) are a permutation of the records
   * with a non-zero ID (in storage order). Applies to records and to pfds alike.
   */
  lemma GcKeepsLiveRecords<T>(s: seq<T>, ids: seq<nat>)
    requires |ids| == |s|
    ensures Below(GcOrder(ids), |s|)
    ensures multiset(Select(s, GcOrder(ids))) == multiset(Select(s, LiveIndices(ids)))
  {
    var o := GcOrder(ids);
    var l := LiveIndices(ids);
    GcOrderSurvivors(ids);
    LiveIndicesSpec(ids);
    forall x ensures multiset(o)[x] == multiset(l)[x] {
      DistinctCount(o, x);
      DistinctCount(l, x);
    }
    assert multiset(o) == multiset(l);
    SelectPermutation(s, o, l);
  }

  // ---------------------------------------------------------------------------
  // Unregistration (app_event_unregister_io, app_event_unregister_timer)
  // ---------------------------------------------------------------------------

  /**
   * The I/O table after `app_event_unregister_io(id)`: the first record whose
   * ID equals `id` gets ID 0, nothing else changes.
   */
  function ZeroFirst(recs: seq<IoRecord>, id: nat): (r: seq<IoRecord>)
    ensures |r| == |recs|
    ensures forall k :: 0 <= k < |recs| ==>
      if recs[k].id == id && (forall j :: 0 <= j < k ==> recs[j].id != id)
      then r[k] == recs[k].(id := 0)
      else r[k] == recs[k]
  {
    if recs == [] then []
    else if recs[0].id == id then [recs[0].(id := 0)] + recs[1..]
    else [recs[0]] + ZeroFirst(recs[1..], id)
  }

  /** The loop of app_event_unregister_io that stops at position `i` computes ZeroFirst. */
  lemma ZeroFirstAt(recs: seq<IoRecord>, id: nat, i: nat)
    requires i < |recs| && recs[i].id == id
    requires forall k :: 0 <= k < i ==> recs[k].id != id
    ensures ZeroFirst(recs, id) == recs[i := recs[i].(id := 0)]
  {
  }

  /** An ID that no record carries leaves the I/O table as it is. */
  lemma UnknownIdIsNoOp(recs: seq<IoRecord>, id: nat)
    requires id == 0 || id !in IoIds(recs)
    ensures ZeroFirst(recs, id) == recs
  {
    var r := ZeroFirst(recs, id);
    forall k | 0 <= k < |recs| ensures r[k] == recs[k] {
      if recs[k].id == id {
        assert id == 0;
      }
    }
  }

  /**
   * With non-zero IDs unique, unregistering an I/O interest twice is the same
   * as unregistering it once, and the ID is gone afterwards.
   */
  lemma {:induction false} UnregisterIoIdempotent(recs: seq<IoRecord>, id: nat)
    requires UniqueNonZero(IoIds(recs))
    ensures ZeroFirst(ZeroFirst(recs, id), id) == ZeroFirst(recs, id)
    ensures id != 0 ==> id !in IoIds(ZeroFirst(recs, id))
  {
    var once := ZeroFirst(recs, id);
    if id == 0 {
      UnknownIdIsNoOp(recs, id);
      UnknownIdIsNoOp(once, id);
    } else {
      forall k | 0 <= k < |once| ensures once[k].id != id {
        if recs[k].id == id {
          var j :| 0 <= j <= k && recs[j].id == id && forall i :: 0 <= i < j ==> recs[i].id != id by {
            FirstMatch(recs, id, k);
          }
        }
      }
      UnknownIdIsNoOp(once, id);
    }
  }

  lemma {:induction false} FirstMatch(recs: seq<IoRecord>, id: nat, k: nat)
    requires k < |recs| && recs[k].id == id
    ensures exists j :: 0 <= j <= k && recs[j].id == id && forall i :: 0 <= i < j ==> recs[i].id != id
    decreases k
  {
    if exists j :: 0 <= j < k && recs[j].id == id {
      var j :| 0 <= j < k && recs[j].id == id;
      FirstMatch(recs, id, j);
    }
  }

  /** The timer table after `app_event_unregister_timer(id)`: every timer with that ID gets ID 0. */
  function ZeroAll(timers: seq<TimerRecord>, id: nat): (r: seq<TimerRecord>)
    ensures |r| == |timers|
    ensures forall k :: 0 <= k < |timers| ==> r[k] == if timers[k].id == id then timers[k].(id := 0) else timers[k]
  {
    seq(|timers|, k requires 0 <= k < |timers| => if timers[k].id == id then timers[k].(id := 0) else timers[k])
  }

  /** Unregistering a timer twice is the same as once, and its ID is gone afterwards. */
  lemma UnregisterTimerIdempotent(timers: seq<TimerRecord>, id: nat)
    ensures ZeroAll(ZeroAll(timers, id), id) == ZeroAll(timers, id)
    ensures id != 0 ==> id !in TimerIds(ZeroAll(timers, id))
  {
  }

  // ---------------------------------------------------------------------------
  // Poll timeout and readiness
  // ---------------------------------------------------------------------------

  /** Milliseconds until a timer is due, counting an overdue timer as due now. */
  function Remaining(t: TimerRecord, now: int): nat {
    if t.expiry - now < 0 then 0 else t.expiry - now
  }

  /**
   * `t` is the timeout app_event_poll passes to poll(): 0 when not blocking,
   * -1 (wait forever) when blocking without timers, and otherwise the least
   * time until a timer is due, capped at INT_MAX.
   */
  ghost predicate IsPollTimeout(block: bool, now: int, timers: seq<TimerRecord>, t: int) {
    if !block then t == 0
    else if timers == [] then t == -1
    else
      && 0 <= t <= INT_MAX
      && (forall k :: 0 <= k < |timers| ==> t <= Remaining(timers[k], now))
      && (t == INT_MAX || exists k :: 0 <= k < |timers| && t == Remaining(timers[k], now))
  }

  /** The description above leaves no choice: it names one timeout. */
  lemma PollTimeoutUnique(block: bool, now: int, timers: seq<TimerRecord>, t1: int, t2: int)
    requires IsPollTimeout(block, now, timers, t1) && IsPollTimeout(block, now, timers, t2)
    ensures t1 == t2
  {
    if block && timers != [] {
      if t1 != INT_MAX {
        var k :| 0 <= k < |timers| && t1 == Remaining(timers[k], now);
        assert t2 <= t1;
      }
      if t2 != INT_MAX {
        var k :| 0 <= k < |timers| && t2 == Remaining(timers[k], now);
        assert t1 <= t2;
      }
    }
  }

  /** What poll() writes to `revents`: the requested conditions that hold, plus error, hang-up and invalid-fd. */
  function Revents(condition: bv16, events: bv16): bv16 {
    condition & (events | POLLERR | POLLHUP | POLLNVAL)
  }
}
