/*
 * The asynchronous stream of src/app-stream.c: a heap record holding a read
 * half and a write half, each with its descriptor, the operation in progress
 * and the reactor IDs of that operation's I/O interest and timeout. Starting
 * an operation stores it and registers with the reactor; the I/O and timeout
 * callbacks themselves are not part of this model.
 */
module AsyncStream {
  import opened Common
  import opened EventSpec
  import opened EventTables
  import opened Event

  // The static callbacks app-stream.c hands to the reactor.
  const READ_IO := Handler("read_io_callback")
  const READ_TIMEOUT := Handler("read_timeout_callback")
  const WRITE_IO := Handler("write_io_callback")
  const WRITE_TIMEOUT := Handler("write_timeout_callback")

  // The events each half waits for, as written: both register APP_EVENT_IN.
  const READ_EVENTS: bv16 := POLLIN
  const WRITE_EVENTS: bv16 := POLLIN

  /**
   * One half of a stream. `callback` is None while no operation is in
   * progress; `ioId` and `timeoutId` are the reactor IDs of the operation's
   * registrations (0 for none).
   */
  datatype Direction = Direction(
    fd: int,
    buffer: object?,
    nBytes: int,
    callback: Option<Handler>,
    userData: object?,
    ioId: nat,
    timeoutId: nat)

  /** A half with nothing in progress, as app_stream_create leaves it. */
  function Idle(fd: int): Direction {
    Direction(fd, null, 0, None, null, 0, 0)
  }

  predicate Busy(d: Direction) {
    d.callback.Some?
  }

  /**
   * What starting an operation on `d` registers with the reactor, in order:
   * the I/O interest on the half's descriptor, then, when a timeout is given,
   * a timer for the milliseconds it has left. Both carry the stream itself.
   */
  function Registrations(d: Direction, events: bv16, io: Handler, expire: Handler, stream: object, timeout: Option<nat>,
                         now: int): seq<Action> {
    [AddIo(d.fd, events, io, stream)] + (if timeout.Some? then [AddTimer(timeout.value, expire, stream, now)] else [])
  }

  /**
   * The half after app_stream_read or app_stream_write started an operation on
   * it while the reactor's ID counter stood at `counter`; None when the call
   * aborts, because an operation is already in progress or because the
   * reactor refuses the half's negative descriptor. The caller's user data is
   * dropped: the source stores NULL.
   */
  function Start(d: Direction, buffer: object?, nBytes: int, callback: Handler, counter: nat, timeout: Option<nat>): Option<Direction> {
    if Busy(d) || d.fd < 0 then None
    else Some(d.(buffer := buffer, nBytes := nBytes, callback := Some(callback), userData := null,
                 ioId := counter + 1, timeoutId := if timeout.Some? then counter + 2 else 0))
  }

  /**
   * At most one operation per half: a start succeeds exactly on an idle half
   * with a descriptor, leaves it busy on the same descriptor, and a second
   * start before the first completes aborts.
   */
  lemma StartOnlyWhenIdle(d: Direction, buffer: object?, nBytes: int, callback: Handler, counter: nat, timeout: Option<nat>,
                          buffer': object?, nBytes': int, callback': Handler, counter': nat, timeout': Option<nat>)
    ensures Start(d, buffer, nBytes, callback, counter, timeout).Some? <==> !Busy(d) && d.fd >= 0
    ensures match Start(d, buffer, nBytes, callback, counter, timeout)
      case Some(r) =>
        && Busy(r) && r.fd == d.fd && r.callback == Some(callback)
        && Start(r, buffer', nBytes', callback', counter', timeout').None?
      case None => true
  {
  }

  /**
   * The IDs a successful start stores name the registrations it made: the I/O
   * record appended to the table, carrying the stream and waiting on the
   * half's descriptor for `events`, and (with a timeout) the timer appended
   * after it, due `timeout` milliseconds after `now`. Neither ID was in use
   * before, so unregistering with them later reaches exactly these records.
   */
  lemma {:induction false} StartedIdsNameRegistrations(t: Tables, d: Direction, events: bv16, io: Handler, expire: Handler,
                                                        stream: object, buffer: object?, nBytes: int, callback: Handler,
                                                        timeout: Option<nat>, now: int)
    requires IdsBounded(t)
    requires Start(d, buffer, nBytes, callback, t.counter, timeout).Some?
    ensures var r := Start(d, buffer, nBytes, callback, t.counter, timeout).value;
      var t' := ApplyAll(t, Registrations(d, events, io, expire, stream, timeout, now));
      && r.ioId !in IoIds(t.io) && r.ioId !in TimerIds(t.timers)
      && |t'.io| == |t.io| + 1 && |t'.pfds| == |t.pfds| + 1
      && t'.io[|t.io|] == IoRecord(r.ioId, io, stream)
      && t'.pfds[|t.io|] == PollFd(d.fd, events, 0)
      && (timeout.None? <==> r.timeoutId == 0)
      && (timeout.Some? ==>
            && r.timeoutId !in IoIds(t.io) && r.timeoutId !in TimerIds(t.timers)
            && |t'.timers| == |t.timers| + 1
            && t'.timers[|t.timers|] == TimerRecord(r.timeoutId, expire, stream, now + timeout.value))
      && (timeout.None? ==> t'.timers == t.timers)
      && t'.counter == t.counter + |Registrations(d, events, io, expire, stream, timeout, now)|
  {
    var regs := Registrations(d, events, io, expire, stream, timeout, now);
    var t1 := Apply(t, regs[0]);
    assert ApplyAll(t, regs[..1]) == t1 by {
      assert regs[..1][..0] == [];
    }
    ApplyKeepsBounded(t, regs[0]);
    if timeout.Some? {
      assert regs[..1] == regs[..|regs| - 1];
      ApplyKeepsBounded(t1, regs[1]);
      assert t.counter + 2 !in TimerIds(t.timers) by {
        assert forall k :: 0 <= k < |t.timers| ==> TimerIds(t.timers)[k] <= t.counter;
      }
      assert t.counter + 2 !in IoIds(t.io) by {
        assert forall k :: 0 <= k < |t.io| ==> IoIds(t.io)[k] <= t.counter;
      }
    } else {
      assert regs == regs[..1];
    }
  }

  /**
   * As written, a write waits for APP_EVENT_IN: a descriptor that is writable
   * but has nothing to read never wakes it, while one that is readable does.
   */
  lemma WriteWaitsForInput()
    ensures Revents(POLLOUT, WRITE_EVENTS) == 0
    ensures Revents(POLLIN | POLLOUT, WRITE_EVENTS) == POLLIN
    ensures Revents(POLLOUT, POLLOUT) == POLLOUT
  {
  }

  /** struct app_stream. */
  class Stream {
    var reader: Direction
    var writer: Direction

    /** app_stream_create: both halves idle; at least one of them must have a descriptor. */
    constructor Create(readFd: int, writeFd: int)
      requires readFd >= 0 || writeFd >= 0
      ensures reader == Idle(readFd) && writer == Idle(writeFd)
      ensures !Busy(reader) && !Busy(writer)
    {
      reader := Idle(readFd);
      writer := Idle(writeFd);
    }

    /**
     * app_stream_read: on an idle read half, stores the operation and
     * registers an APP_EVENT_IN interest on the read descriptor and, with a
     * timeout, a timer; `ok` is false where the source aborts. The write half
     * is untouched.
     */
    method Read(reactor: Reactor, buffer: object?, nBytes: int, callback: Handler, userData: object?,
                timeout: Option<nat>, now: int) returns (ok: bool)
      requires reactor.Valid()
      requires buffer != null || nBytes == 0
      modifies this, reactor.Repr
      ensures reactor.Valid() && fresh(reactor.Repr - old(reactor.Repr))
      ensures writer == old(writer)
      ensures ok == Start(old(reader), buffer, nBytes, callback, old(reactor.idCounter), timeout).Some?
      ensures ok ==> Some(reader) == Start(old(reader), buffer, nBytes, callback, old(reactor.idCounter), timeout)
      ensures ok ==> (reactor.Snapshot() ==
        ApplyAll(old(reactor.Snapshot()), Registrations(old(reader), READ_EVENTS, READ_IO, READ_TIMEOUT, this, timeout, now)))
      ensures !ok ==> reader == old(reader) && reactor.Snapshot() == old(reactor.Snapshot())
    {
      var d := reader;
      var ioId, timeoutId;
      ok, ioId, timeoutId := Begin(reactor, d, READ_EVENTS, READ_IO, READ_TIMEOUT, timeout, now);
      if ok {
        reader := d.(buffer := buffer, nBytes := nBytes, callback := Some(callback), userData := null,
                     ioId := ioId, timeoutId := timeoutId);
      }
    }

    /** app_stream_write: the same on the write half, registering APP_EVENT_IN (not APP_EVENT_OUT) on the write descriptor. */
    method Write(reactor: Reactor, buffer: object?, nBytes: int, callback: Handler, userData: object?,
                 timeout: Option<nat>, now: int) returns (ok: bool)
      requires reactor.Valid()
      requires buffer != null || nBytes == 0
      modifies this, reactor.Repr
      ensures reactor.Valid() && fresh(reactor.Repr - old(reactor.Repr))
      ensures reader == old(reader)
      ensures ok == Start(old(writer), buffer, nBytes, callback, old(reactor.idCounter), timeout).Some?
      ensures ok ==> Some(writer) == Start(old(writer), buffer, nBytes, callback, old(reactor.idCounter), timeout)
      ensures ok ==> (reactor.Snapshot() ==
        ApplyAll(old(reactor.Snapshot()), Registrations(old(writer), WRITE_EVENTS, WRITE_IO, WRITE_TIMEOUT, this, timeout, now)))
      ensures !ok ==> writer == old(writer) && reactor.Snapshot() == old(reactor.Snapshot())
    {
      var d := writer;
      var ioId, timeoutId;
      ok, ioId, timeoutId := Begin(reactor, d, WRITE_EVENTS, WRITE_IO, WRITE_TIMEOUT, timeout, now);
      if ok {
        writer := d.(buffer := buffer, nBytes := nBytes, callback := Some(callback), userData := null,
                     ioId := ioId, timeoutId := timeoutId);
      }
    }

    /**
     * The registrations shared by Read and Write, made only when the half is
     * idle and has a descriptor; the reactor's counter advances by one per
     * registration.
     */
    method Begin(reactor: Reactor, d: Direction, events: bv16, io: Handler, expire: Handler, timeout: Option<nat>, now: int)
      returns (ok: bool, ioId: nat, timeoutId: nat)
      requires reactor.Valid() && events != 0
      modifies reactor.Repr
      ensures reactor.Valid() && fresh(reactor.Repr - old(reactor.Repr))
      ensures ok == (!Busy(d) && d.fd >= 0)
      ensures ok ==> reactor.Snapshot() == ApplyAll(old(reactor.Snapshot()), Registrations(d, events, io, expire, this, timeout, now))
      ensures ok ==> ioId == old(reactor.idCounter) + 1
      ensures ok ==> timeoutId == if timeout.Some? then old(reactor.idCounter) + 2 else 0
      ensures !ok ==> reactor.Snapshot() == old(reactor.Snapshot())
    {
      if Busy(d) || d.fd < 0 {
        return false, 0, 0;
      }
      ghost var t0 := reactor.Snapshot();
      ghost var regs := Registrations(d, events, io, expire, this, timeout, now);
      ioId := reactor.RegisterIo(d.fd, events, io, this);
      assert reactor.Snapshot() == ApplyAll(t0, regs[..1]) by {
        assert regs[..1][..0] == [];
      }
      if timeout.Some? {
        timeoutId := reactor.RegisterTimer(timeout.value, now, expire, this);
        assert regs[..1] == regs[..|regs| - 1];
      } else {
        timeoutId := 0;
        assert regs == regs[..1];
      }
      ok := true;
    }

    /**
     * app_stream_destroy: frees the record only. Pending registrations stay in
     * the reactor, still carrying the stream as their user data.
     */
    method Destroy(reactor: Reactor)
      requires reactor.Valid()
      ensures reactor.Valid()
      ensures reactor.Snapshot() == old(reactor.Snapshot())
    {
    }
  }
}
