/*
 * The TCP service of src/app-service.c: a listening socket re-armed with the
 * reactor after every accept event, and an intrusive doubly linked list of
 * session records with a count and a hard capacity. The system calls
 * (accept, getpeername, close, socket/bind/listen) and the session callbacks
 * are inputs; what the service asks of the outside world while closing a
 * session is returned as a list of calls, in order.
 */
module TcpService {
  import opened Common
  import opened EventSpec
  import opened EventTables
  import opened Event
  import opened AsyncStream

  /** The static callback the service registers for its listening socket. */
  const ACCEPT := Handler("accept_callback")

  /** A call the service makes to code outside this module. */
  datatype Call =
    | DestroySessionObject(sessionObject: object, userData: object?)  // destroy_session_cb(object, user_data)
    | DestroyStream(stream: Stream)                              // app_stream_destroy(stream)
    | CloseSocket(fd: int)                                       // close_socket(fd)

  /** The parts of a session record that cleanup_session releases. */
  datatype Resources = Resources(sessionObject: object?, stream: Stream?, socket: int)

  /** close_socket: only a descriptor that is not negative is closed. */
  function CloseCalls(fd: int): seq<Call> {
    if fd >= 0 then [CloseSocket(fd)] else []
  }

  /**
   * The calls cleanup_session makes, in its order: the destroy callback for a
   * session sessionObject, then the stream, then the socket; each only when present.
   */
  function CleanupCalls(r: Resources, userData: object?): (calls: seq<Call>)
  {
    (if r.sessionObject != null then [DestroySessionObject(r.sessionObject, userData)] else [])
    + (if r.stream != null then [DestroyStream(r.stream)] else [])
    + CloseCalls(r.socket)
  }

  /** Cleanup releases each resource exactly once and nothing else, in the order sessionObject, stream, socket. */
  lemma CleanupOrder(r: Resources, userData: object?)
    requires r.sessionObject != null && r.stream != null && r.socket >= 0
    ensures CleanupCalls(r, userData) == [DestroySessionObject(r.sessionObject, userData), DestroyStream(r.stream), CloseSocket(r.socket)]
  {
  }

  /** The calls app_service_destroy makes for its sessions: each session's cleanup, starting from the tail. */
  function DrainCalls(rs: seq<Resources>, userData: object?): seq<Call>
    decreases |rs|
  {
    if rs == [] then [] else CleanupCalls(rs[|rs| - 1], userData) + DrainCalls(rs[..|rs| - 1], userData)
  }

  /** Draining the first n records starts with the n-th one's cleanup. */
  lemma DrainPrefixStep(rs: seq<Resources>, n: nat, userData: object?)
    requires 0 < n <= |rs|
    ensures DrainCalls(rs[..n], userData) == CleanupCalls(rs[n - 1], userData) + DrainCalls(rs[..n - 1], userData)
  {
    assert rs[..n][..n - 1] == rs[..n - 1];
  }

  /** Draining a non-empty list is the last record's cleanup, then draining the rest. */
  lemma DrainLast(rs: seq<Resources>, userData: object?)
    requires rs != []
    ensures DrainCalls(rs, userData) == CleanupCalls(rs[|rs| - 1], userData) + DrainCalls(rs[..|rs| - 1], userData)
  {
  }

  /** Draining a list is draining its back part, then its front part. */
  lemma {:induction false} DrainSplit(a: seq<Resources>, b: seq<Resources>, userData: object?)
    ensures DrainCalls(a + b, userData) == DrainCalls(b, userData) + DrainCalls(a, userData)
    decreases |b|
  {
    if b == [] {
      assert a + b == a;
    } else {
      var ab, b' := a + b, b[..|b| - 1];
      var last := CleanupCalls(b[|b| - 1], userData);
      assert ab[..|ab| - 1] == a + b';
      assert ab[|ab| - 1] == b[|b| - 1];
      DrainLast(ab, userData);
      DrainLast(b, userData);
      DrainSplit(a, b', userData);
      calc {
        DrainCalls(ab, userData);
        last + DrainCalls(a + b', userData);
        last + (DrainCalls(b', userData) + DrainCalls(a, userData));
        (last + DrainCalls(b', userData)) + DrainCalls(a, userData);
        DrainCalls(b, userData) + DrainCalls(a, userData);
      }
    }
  }

  /**
   * Draining releases every session's resources: the calls for the session at
   * position k come after those of every session behind it and before those
   * of every session ahead of it.
   */
  lemma DrainReleasesAll(rs: seq<Resources>, userData: object?, k: nat)
    requires k < |rs|
    ensures DrainCalls(rs, userData) ==
      DrainCalls(rs[k + 1..], userData) + CleanupCalls(rs[k], userData) + DrainCalls(rs[..k], userData)
  {
    var front, back := rs[..k], rs[k + 1..];
    calc {
      DrainCalls(rs, userData);
      { assert rs == front + ([rs[k]] + back); }
      DrainCalls(front + ([rs[k]] + back), userData);
      { DrainSplit(front, [rs[k]] + back, userData); }
      DrainCalls([rs[k]] + back, userData) + DrainCalls(front, userData);
      { DrainSplit([rs[k]], back, userData);
        assert DrainCalls([rs[k]], userData) == CleanupCalls(rs[k], userData) + DrainCalls([], userData); }
      DrainCalls(back, userData) + CleanupCalls(rs[k], userData) + DrainCalls(front, userData);
    }
  }

  /** The branch accept_callback takes. */
  datatype AcceptCase =
    | NotReadable   // APP_EVENT_IN not among the events: only re-arm
    | AcceptFailed  // accept() failed: a warning is logged
    | AtCapacity    // the list is full: the new connection is closed at once
    | Declined      // the create callback returned NULL: the new record is cleaned up
    | Admitted      // the new session joins the list at the tail

  function Classify(events: bv16, accepted: int, count: nat, max: nat, created: object?): AcceptCase {
    if events & POLLIN == 0 then NotReadable
    else if accepted < 0 then AcceptFailed
    else if count >= max then AtCapacity
    else if created == null then Declined
    else Admitted
  }

  /** The client address text and port a session records: "?" and 0 when the peer's name cannot be had. */
  function PeerName(peer: Option<(string, int)>): (string, int) {
    if peer.Some? then peer.value else ("?", 0)
  }

  /** The (prev, next) pair the record at position k of a list must hold. */
  function Around(s: seq<Session>, k: nat): (Session?, Session?)
    requires k < |s|
  {
    (if k == 0 then null else s[k - 1], if k == |s| - 1 then null else s[k + 1])
  }

  /** `links` gives every record of `s` its neighbours in `s` as prev and next, with null at the ends. */
  ghost predicate DoublyLinked(s: seq<Session>, links: seq<(Session?, Session?)>) {
    |links| == |s| && forall k :: 0 <= k < |s| ==> links[k] == Around(s, k)
  }

  /** No record appears twice in `s`. */
  ghost predicate NoRepeats(s: seq<Session>)
    decreases |s|
  {
    s == [] || (s[|s| - 1] !in s[..|s| - 1] && NoRepeats(s[..|s| - 1]))
  }

  /** Two positions of a list without repeats hold different records. */
  lemma {:induction false} DistinctAt(s: seq<Session>, i: nat, j: nat)
    requires NoRepeats(s) && i < j < |s|
    ensures s[i] != s[j]
    decreases |s|
  {
    var s' := s[..|s| - 1];
    if j < |s| - 1 {
      DistinctAt(s', i, j);
    } else {
      assert s[i] == s'[i];
    }
  }

  /** In a list without repeats, positions hold the same record exactly when they are the same position. */
  lemma SameAt(s: seq<Session>, i: nat, j: nat)
    requires NoRepeats(s) && i < |s| && j < |s|
    ensures s[i] == s[j] <==> i == j
  {
    if i < j {
      DistinctAt(s, i, j);
    } else if j < i {
      DistinctAt(s, j, i);
    }
  }

  /** A list whose positions hold pairwise different records has no repeats. */
  lemma {:induction false} PairwiseDistinct(s: seq<Session>)
    requires forall i, j :: 0 <= i < j < |s| ==> s[i] != s[j]
    ensures NoRepeats(s)
    decreases |s|
  {
    if s != [] {
      var s' := s[..|s| - 1];
      PairwiseDistinct(s');
      forall i | 0 <= i < |s'|
        ensures s'[i] != s[|s| - 1]
      {
        assert s'[i] == s[i];
      }
    }
  }

  /** Removing a record keeps a list free of repeats, and the record is no longer in it. */
  lemma NoRepeatsWithout(s: seq<Session>, p: nat)
    requires NoRepeats(s) && p < |s|
    ensures NoRepeats(s[..p] + s[p + 1..]) && s[p] !in s[..p] + s[p + 1..]
  {
    var s' := s[..p] + s[p + 1..];
    assert NoRepeats(s') by {
      forall i, j | 0 <= i < j < |s'|
        ensures s'[i] != s'[j]
      {
        SkipAt(s, p, i);
        SkipAt(s, p, j);
        SameAt(s, Skip(i, p), Skip(j, p));
      }
      PairwiseDistinct(s');
    }
    assert s[p] !in s' by {
      if s[p] in s' {
        var i :| 0 <= i < |s'| && s'[i] == s[p];
        SkipAt(s, p, i);
        SameAt(s, p, Skip(i, p));
      }
    }
  }

  /** Position i of the list without position p holds what position Skip(i, p) of the list held. */
  lemma SkipAt<T>(s: seq<T>, p: nat, i: nat)
    requires p < |s| && i < |s| - 1
    ensures (s[..p] + s[p + 1..])[i] == s[Skip(i, p)]
  {
  }

  /** The position in the original list of position i once position p is removed. */
  function Skip(i: nat, p: nat): (j: nat)
    ensures (i < p ==> j == i) && (i >= p ==> j == i + 1)
  {
    if i < p then i else i + 1
  }

  /** Appending a record not yet present keeps a list free of repeats. */
  lemma NoRepeatsAppend(s: seq<Session>, x: Session)
    requires NoRepeats(s) && x !in s
    ensures NoRepeats(s + [x])
  {
    assert (s + [x])[..|s|] == s;
  }

  /**
   * The links once the record at position p is bypassed: its successor takes
   * over its prev and its predecessor its next.
   */
  function Rewired(links: seq<(Session?, Session?)>, p: nat): (r: seq<(Session?, Session?)>)
    requires p < |links|
    ensures |r| == |links|
  {
    var l := if p + 1 < |links| then links[p + 1 := (links[p].0, links[p + 1].1)] else links;
    if p > 0 then l[p - 1 := (l[p - 1].0, links[p].1)] else l
  }

  /** The links once the record at position p is bypassed and dropped from the list. */
  function Unlinked(links: seq<(Session?, Session?)>, p: nat): (r: seq<(Session?, Session?)>)
    requires p < |links|
    ensures |r| == |links| - 1
  {
    var l := Rewired(links, p);
    l[..p] + l[p + 1..]
  }

  /** The links once `x` is linked after `last`, the old tail. */
  function Appended(links: seq<(Session?, Session?)>, last: Session?, x: Session): (r: seq<(Session?, Session?)>)
    ensures |r| == |links| + 1
  {
    (if links == [] then [] else links[|links| - 1 := (links[|links| - 1].0, x)]) + [(last, null)]
  }

  /** Unlinking a record as app_service_close_session does leaves the rest doubly linked in order. */
  lemma {:induction false} UnlinkKeepsLinks(s: seq<Session>, links: seq<(Session?, Session?)>, p: nat)
    requires DoublyLinked(s, links) && p < |s|
    ensures DoublyLinked(s[..p] + s[p + 1..], Unlinked(links, p))
  {
    var s' := s[..p] + s[p + 1..];
    forall k | 0 <= k < |s'|
      ensures Unlinked(links, p)[k] == Around(s', k)
    {
      UnlinkKeepsLinkAt(s, links, p, k);
    }
  }

  /** Position k of the list without position p: its links are its neighbours there. */
  lemma UnlinkKeepsLinkAt(s: seq<Session>, links: seq<(Session?, Session?)>, p: nat, k: nat)
    requires DoublyLinked(s, links) && p < |s| && k < |s| - 1
    ensures Unlinked(links, p)[k] == Around(s[..p] + s[p + 1..], k)
  {
    var j := Skip(k, p);
    SkipAt(s, p, k);
    SkipAt(Rewired(links, p), p, k);
    if k > 0 {
      SkipAt(s, p, k - 1);
    }
    if k + 1 < |s| - 1 {
      SkipAt(s, p, k + 1);
    }
    assert links[j] == Around(s, j) && links[p] == Around(s, p);
  }

  /** Linking a record at the tail as accept_callback does keeps the list doubly linked. */
  lemma {:induction false} AppendKeepsLinks(s: seq<Session>, links: seq<(Session?, Session?)>, x: Session)
    requires DoublyLinked(s, links)
    ensures DoublyLinked(s + [x], Appended(links, if s == [] then null else s[|s| - 1], x))
  {
    var s' := s + [x];
    var r := Appended(links, if s == [] then null else s[|s| - 1], x);
    forall k | 0 <= k < |s'|
      ensures r[k] == Around(s', k)
    {
      if k < |s| {
        assert links[k] == Around(s, k);
      }
    }
  }

  /** The prev and next of each record of `s`, in order. */
  ghost function LinksOf(s: seq<Session>): (links: seq<(Session?, Session?)>)
    reads s
    ensures |links| == |s|
    ensures forall k {:trigger links[k]} :: 0 <= k < |s| ==> links[k] == (s[k].prev, s[k].next)
  {
    seq(|s|, k reads s requires 0 <= k < |s| => (s[k].prev, s[k].next))
  }

  /** What each record of `s` holds, in order. */
  ghost function HeldOf(s: seq<Session>): (rs: seq<Resources>)
    reads s
    ensures |rs| == |s|
    ensures forall k {:trigger rs[k]} :: 0 <= k < |s| ==> rs[k] == s[k].Held()
  {
    seq(|s|, k reads s requires 0 <= k < |s| => s[k].Held())
  }

  /** Dropping a record from a list drops its links and leaves the others' as they are. */
  lemma LinksWithout(s: seq<Session>, p: nat)
    requires p < |s|
    ensures LinksOf(s[..p] + s[p + 1..]) == LinksOf(s)[..p] + LinksOf(s)[p + 1..]
    ensures HeldOf(s[..p] + s[p + 1..]) == HeldOf(s)[..p] + HeldOf(s)[p + 1..]
  {
    var s' := s[..p] + s[p + 1..];
    forall k | 0 <= k < |s'|
      ensures LinksOf(s')[k] == (LinksOf(s)[..p] + LinksOf(s)[p + 1..])[k]
      ensures HeldOf(s')[k] == (HeldOf(s)[..p] + HeldOf(s)[p + 1..])[k]
    {
      assert s'[k] == s[if k < p then k else k + 1];
    }
  }

  /** Appending a record to a list appends its links. */
  lemma LinksAppend(s: seq<Session>, x: Session)
    ensures LinksOf(s + [x]) == LinksOf(s) + [(x.prev, x.next)]
    ensures HeldOf(s + [x]) == HeldOf(s) + [x.Held()]
  {
    assert forall k :: 0 <= k < |s| ==> (s + [x])[k] == s[k];
  }

  /** Every record holds its session object, stream and socket. */
  predicate Holding(rs: seq<Resources>) {
    forall k :: 0 <= k < |rs| ==> rs[k].sessionObject != null && rs[k].stream != null && rs[k].socket >= 0
  }

  /** Dropping a record keeps the others holding their resources. */
  lemma HoldingWithout(rs: seq<Resources>, p: nat)
    requires Holding(rs) && p < |rs|
    ensures Holding(rs[..p] + rs[p + 1..])
  {
    var t := rs[..p] + rs[p + 1..];
    forall k | 0 <= k < |t|
      ensures t[k].sessionObject != null && t[k].stream != null && t[k].socket >= 0
    {
      if k < p {
        assert t[k] == rs[k];
      } else {
        assert t[k] == rs[k + 1];
      }
    }
  }

  /** The record a possibly NULL link points to, as a frame. */
  function Present(s: Session?): set<Session> {
    if s == null then {} else {s}
  }

  /** app_service_session_internal_t, with the embedded context's fields. */
  class Session {
    var service: Service?      // ctx.service
    var stream: Stream?        // ctx.stream
    var clientAddr: string     // ctx.client_addr_str
    var clientPort: int        // ctx.client_port
    var prev: Session?
    var next: Session?
    var clientSocket: int
    var sessionObject: object?

    /**
     * The record accept_callback fills in for an accepted connection: its
     * socket, a new stream reading and writing that socket, the peer's name
     * and the session object. `leftover` is what ctx.service holds; the
     * source never stores anything there.
     */
    constructor Alloc(leftover: Service?, socket: int, addr: string, port: int, created: object?)
      requires socket >= 0
      ensures service == leftover && clientSocket == socket && sessionObject == created
      ensures clientAddr == addr && clientPort == port
      ensures fresh(stream) && stream.reader == Idle(socket) && stream.writer == Idle(socket)
    {
      service := leftover;
      clientSocket := socket;
      stream := new Stream.Create(socket, socket);
      clientAddr := addr;
      clientPort := port;
      sessionObject := created;
    }

    ghost function Held(): Resources
      reads this`sessionObject, this`stream, this`clientSocket
    {
      Resources(sessionObject, stream, clientSocket)
    }
  }

  /** struct app_service. */
  class Service {
    var name: Option<string>
    var maxConnections: nat
    var userData: object?
    var listenSocket: int
    var listenId: nat
    var firstSession: Session?
    var lastSession: Session?
    var sessionCount: nat
    /** The sessions from first to last. */
    ghost var sessions: seq<Session>

    /**
     * The service invariant: the list invariant, every listed record holds
     * its session object, stream and socket, and belongs to this service.
     */
    ghost predicate Valid()
      reads this, sessions
    {
      && Linked()
      && Holding(HeldOf(sessions))
      && (forall i :: 0 <= i < |sessions| ==> sessions[i].service == this)
    }

    /**
     * The list invariant: the count is the list's length and at most the
     * capacity; first and last are its ends; prev and next link neighbours
     * both ways; no record appears twice. The listening socket is open.
     */
    ghost predicate Linked()
      reads this, sessions
    {
      && 0 < maxConnections
      && |sessions| == sessionCount <= maxConnections
      && listenSocket >= 0
      && firstSession == (if sessions == [] then null else sessions[0])
      && lastSession == (if sessions == [] then null else sessions[|sessions| - 1])
      && DoublyLinked(sessions, LinksOf(sessions))
      && NoRepeats(sessions)
    }

    ghost function Position(s: Session): (p: nat)
      reads this
      requires s in sessions
      ensures p < |sessions| && sessions[p] == s
    {
      var p :| 0 <= p < |sessions| && sessions[p] == s; p
    }

    /** The links of the record at position p. */
    lemma Neighbours(p: nat)
      requires Linked() && p < |sessions|
      ensures (sessions[p].prev, sessions[p].next) == Around(sessions, p)
    {
      assert LinksOf(sessions)[p] == Around(sessions, p);
    }

    /**
     * app_service_new once the bind address is valid and the socket listens:
     * no sessions, and an APP_EVENT_IN interest on the listening socket.
     */
    constructor New(name: string, maxConns: nat, userData: object?, listenSocket: int, reactor: Reactor)
      requires maxConns > 0 && listenSocket >= 0
      requires reactor.Valid()
      modifies reactor.Repr
      ensures Valid() && sessions == [] && sessionCount == 0
      ensures this.name == Some(name) && maxConnections == maxConns && this.userData == userData
      ensures this.listenSocket == listenSocket
      ensures reactor.Valid() && fresh(reactor.Repr - old(reactor.Repr))
      ensures listenId == old(reactor.idCounter) + 1
      ensures reactor.Snapshot() == Apply(old(reactor.Snapshot()), AddIo(listenSocket, POLLIN, ACCEPT, this))
    {
      this.name := Some(name);
      maxConnections := maxConns;
      this.userData := userData;
      this.listenSocket := listenSocket;
      listenId := 0;
      firstSession := null;
      lastSession := null;
      sessionCount := 0;
      sessions := [];
      new;
      ScheduleAccept(reactor);
    }

    /** schedule_accept: only with no listen interest outstanding; registers a new one. */
    method ScheduleAccept(reactor: Reactor)
      requires listenId == 0 && listenSocket >= 0
      requires reactor.Valid()
      modifies this`listenId, reactor.Repr
      ensures reactor.Valid() && fresh(reactor.Repr - old(reactor.Repr))
      ensures unchanged(sessions) && unchanged(Present(lastSession)) && (old(Valid()) ==> Valid())
      ensures listenId == old(reactor.idCounter) + 1
      ensures reactor.Snapshot() == Apply(old(reactor.Snapshot()), AddIo(listenSocket, POLLIN, ACCEPT, this))
    {
      listenId := reactor.RegisterIo(listenSocket, POLLIN, ACCEPT, this);
    }

    /**
     * What accept_callback leaves behind in branch `c`, given the list, its
     * tail and its records' resources before: the records already listed
     * keep their order and resources; an admitted session is appended at the
     * tail with the accepted socket, a stream idle on it in both directions,
     * the peer's name and the created object;
     * a declined one has its stream destroyed and its socket closed; a
     * connection over capacity is closed at once; otherwise nothing happens.
     */
    ghost predicate Outcome(c: AcceptCase, s0: seq<Session>, last0: Session?, held0: seq<Resources>, calls: seq<Call>,
                            accepted: int, peer: Option<(string, int)>, created: object?)
      reads this`sessions, this`lastSession, sessions, Present(lastSession)
      reads if lastSession != null && lastSession.stream != null then {lastSession.stream} else {}
    {
      && |s0| <= |sessions| && HeldOf(sessions)[..|s0|] == held0
      && match c
        case Admitted =>
          && lastSession != null && sessions == s0 + [lastSession]
          && lastSession.prev == last0 && lastSession.next == null
          && lastSession.clientSocket == accepted && lastSession.sessionObject == created
          && lastSession.stream != null
          && lastSession.stream.reader == Idle(accepted) && lastSession.stream.writer == Idle(accepted)
          && (lastSession.clientAddr, lastSession.clientPort) == PeerName(peer)
          && calls == []
        case Declined =>
          sessions == s0 && |calls| == 2 && calls[0].DestroyStream? && calls[1] == CloseSocket(accepted)
        case AtCapacity =>
          sessions == s0 && calls == [CloseSocket(accepted)]
        case _ =>
          sessions == s0 && calls == []
    }

    /**
     * accept_callback, given the events, what accept() returned, the peer's
     * name (None when getpeername or inet_ntop fails) and what the create
     * callback returns. Whatever the branch, the listen interest is reset and
     * registered again.
     */
    method Accept(reactor: Reactor, events: bv16, accepted: int, peer: Option<(string, int)>, created: object?)
      returns (calls: seq<Call>)
      requires Valid() && reactor.Valid()
      modifies this, lastSession, reactor.Repr
      ensures Valid() && reactor.Valid() && fresh(reactor.Repr - old(reactor.Repr))
      ensures listenId == old(reactor.idCounter) + 1
      ensures reactor.Snapshot() == Apply(old(reactor.Snapshot()), AddIo(listenSocket, POLLIN, ACCEPT, this))
      ensures name == old(name) && maxConnections == old(maxConnections) && userData == old(userData)
      ensures listenSocket == old(listenSocket)
      ensures Outcome(Classify(events, accepted, old(sessionCount), maxConnections, created),
                      old(sessions), old(lastSession), old(HeldOf(sessions)), calls, accepted, peer, created)
      ensures Classify(events, accepted, old(sessionCount), maxConnections, created) == Admitted ==>
          fresh(lastSession) && fresh(lastSession.stream)
      ensures Classify(events, accepted, old(sessionCount), maxConnections, created) == Declined ==>
          |calls| == 2 && calls[0].DestroyStream? && fresh(calls[0].stream)
      ensures sessionCount <= maxConnections
      ensures sessionCount == old(sessionCount) +
        if Classify(events, accepted, old(sessionCount), maxConnections, created) == Admitted then 1 else 0
    {
      calls := Arrive(events, accepted, peer, created);
      Rearm(reactor);
    }

    /** The end of accept_callback: the listen ID is reset and the interest registered again. */
    method Rearm(reactor: Reactor)
      requires listenSocket >= 0 && reactor.Valid()
      modifies this`listenId, reactor.Repr
      ensures reactor.Valid() && fresh(reactor.Repr - old(reactor.Repr))
      ensures listenId == old(reactor.idCounter) + 1
      ensures reactor.Snapshot() == Apply(old(reactor.Snapshot()), AddIo(listenSocket, POLLIN, ACCEPT, this))
      ensures unchanged(sessions) && unchanged(Present(lastSession)) && (old(Valid()) ==> Valid())
    {
      listenId := 0;
      ScheduleAccept(reactor);
    }

    /** The connection handling of accept_callback, before the listen interest is re-armed. */
    method Arrive(events: bv16, accepted: int, peer: Option<(string, int)>, created: object?) returns (calls: seq<Call>)
      requires Valid()
      modifies this, lastSession
      ensures Valid()
      ensures name == old(name) && maxConnections == old(maxConnections) && userData == old(userData)
      ensures listenSocket == old(listenSocket) && listenId == old(listenId)
      ensures Outcome(Classify(events, accepted, old(sessionCount), maxConnections, created),
                      old(sessions), old(lastSession), old(HeldOf(sessions)), calls, accepted, peer, created)
      ensures Classify(events, accepted, old(sessionCount), maxConnections, created) == Admitted ==>
          fresh(lastSession) && fresh(lastSession.stream)
      ensures Classify(events, accepted, old(sessionCount), maxConnections, created) == Declined ==>
          |calls| == 2 && calls[0].DestroyStream? && fresh(calls[0].stream)
      ensures sessionCount <= maxConnections
      ensures sessionCount == old(sessionCount) +
        if Classify(events, accepted, old(sessionCount), maxConnections, created) == Admitted then 1 else 0
    {
      calls := [];
      if events & POLLIN != 0 {
        if accepted < 0 {
          // the warning is logged
        } else if sessionCount >= maxConnections {
          calls := CloseCalls(accepted);
        } else {
          calls := Welcome(accepted, peer, created);
        }
      }
    }

    /** The branch of accept_callback below capacity, for a record that belongs to this service. */
    method Welcome(accepted: int, peer: Option<(string, int)>, created: object?) returns (calls: seq<Call>)
      requires Valid() && accepted >= 0 && sessionCount < maxConnections
      modifies this, lastSession
      ensures Valid()
      ensures name == old(name) && maxConnections == old(maxConnections) && userData == old(userData)
      ensures listenSocket == old(listenSocket) && listenId == old(listenId)
      ensures Outcome(if created == null then Declined else Admitted,
                      old(sessions), old(lastSession), old(HeldOf(sessions)), calls, accepted, peer, created)
      ensures created != null ==>
          fresh(lastSession) && fresh(lastSession.stream)
      ensures created == null ==> |calls| == 2 && calls[0].DestroyStream? && fresh(calls[0].stream)
    {
      var session, aborted;
      session, aborted, calls := Admit(accepted, peer, created, this);
    }

    /**
     * The admitting branch of accept_callback (a connection below capacity):
     * a new record, linked at the tail when the create callback yields an
     * object and cleaned up otherwise. `ctxService` is what the record's
     * ctx.service holds when cleanup_session checks it; `aborted` is true
     * where that check fails.
     */
    method Admit(accepted: int, peer: Option<(string, int)>, created: object?, ctxService: Service?)
      returns (session: Session, aborted: bool, calls: seq<Call>)
      requires Linked() && accepted >= 0 && sessionCount < maxConnections
      modifies this, lastSession
      ensures Linked() && fresh(session)
      ensures ctxService == this && old(Valid()) ==> Valid()
      ensures aborted == (created == null && ctxService != this)
      ensures name == old(name) && maxConnections == old(maxConnections) && userData == old(userData)
      ensures listenSocket == old(listenSocket) && listenId == old(listenId)
      ensures forall s :: s in old(sessions) ==> s.Held() == old(s.Held()) && s.service == old(s.service)
      ensures |old(sessions)| <= |sessions| && HeldOf(sessions)[..|old(sessions)|] == old(HeldOf(sessions))
      ensures created != null ==>
          && sessions == old(sessions) + [session] && lastSession == session && session.service == ctxService
          && session.prev == old(lastSession) && session.next == null
          && session.clientSocket == accepted && session.sessionObject == created
          && (session.clientAddr, session.clientPort) == PeerName(peer)
          && fresh(session.stream) && session.stream.reader == Idle(accepted) && session.stream.writer == Idle(accepted)
          && calls == []
      ensures created == null ==> sessions == old(sessions)
      ensures created == null && !aborted ==>
          && |calls| == 2 && calls[0].DestroyStream? && fresh(calls[0].stream) && calls[1] == CloseSocket(accepted)
      ensures created == null && aborted ==> calls == []
    {
      ghost var s0 := sessions;
      ghost var held0 := HeldOf(sessions);
      var addr := PeerName(peer);
      session := new Session.Alloc(ctxService, accepted, addr.0, addr.1, created);
      calls := [];
      aborted := false;
      if session.sessionObject != null {
        Join(session);
      } else if session.service != this {
        // the APP_ASSERT in cleanup_session fails: the process aborts
        aborted := true;
      } else {
        calls := Discard(session);
      }
    }

    /** Link, together with what it leaves of the records' resources and of the service invariant. */
    method Join(session: Session)
      requires Linked() && session !in sessions && sessionCount < maxConnections
      modifies this, Present(lastSession)`next, session`prev, session`next
      ensures Linked() && sessions == old(sessions) + [session]
      ensures session.prev == old(lastSession) && session.next == null && lastSession == session
      ensures name == old(name) && maxConnections == old(maxConnections) && userData == old(userData)
      ensures listenSocket == old(listenSocket) && listenId == old(listenId)
      ensures HeldOf(sessions) == old(HeldOf(sessions)) + [session.Held()]
      ensures old(Valid()) && session.service == this && Holding([session.Held()]) ==> Valid()
    {
      ghost var s0 := sessions;
      ghost var held0 := HeldOf(sessions);
      Link(session);
      assert HeldOf(s0) == held0;
      LinksAppend(s0, session);
      assert HeldOf(sessions) == held0 + [session.Held()];
    }

    /** Cleanup of a new record the create callback declined: its stream is destroyed and its socket closed. */
    method Discard(session: Session) returns (calls: seq<Call>)
      requires session.service == this && session.sessionObject == null
      requires session.stream != null && session.clientSocket >= 0
      modifies session`sessionObject, session`stream, session`clientSocket, session`service
      ensures calls == [DestroyStream(old(session.stream)), CloseSocket(old(session.clientSocket))]
    {
      calls := Cleanup(session);
    }

    /** Links a record at the tail of the list (the linking steps of accept_callback). */
    method Link(session: Session)
      requires Linked() && session !in sessions && sessionCount < maxConnections
      modifies this, Present(lastSession)`next, session`prev, session`next
      ensures Linked() && sessions == old(sessions) + [session]
      ensures session.prev == old(lastSession) && session.next == null && lastSession == session
      ensures name == old(name) && maxConnections == old(maxConnections) && userData == old(userData)
      ensures listenSocket == old(listenSocket) && listenId == old(listenId)
    {
      ghost var s0 := sessions;
      ghost var l0 := LinksOf(sessions);
      var last := lastSession;
      if last != null {
        SetNext(last, |s0| - 1, session);
      } else {
        firstSession := session;
      }
      ghost var l1 := LinksOf(s0);
      assert l1 == Appended(l0, last, session)[..|s0|];
      session.next := null;
      session.prev := last;
      assert LinksOf(s0) == l1;
      lastSession := session;
      sessionCount := sessionCount + 1;
      sessions := s0 + [session];
      LinksAppend(s0, session);
      AppendKeepsLinks(s0, l0, session);
      NoRepeatsAppend(s0, session);
    }

    /**
     * cleanup_session on a record that belongs to this service: releases its
     * object, stream and socket in that order, and clears the fields.
     */
    method Cleanup(session: Session) returns (calls: seq<Call>)
      requires session.service == this
      modifies session`sessionObject, session`stream, session`clientSocket, session`service
      ensures calls == CleanupCalls(old(session.Held()), userData)
      ensures session.Held() == Resources(null, null, if old(session.clientSocket) >= 0 then -1 else old(session.clientSocket))
      ensures session.service == null
    {
      calls := [];
      if session.sessionObject != null {
        calls := calls + [DestroySessionObject(session.sessionObject, userData)];
        session.sessionObject := null;
      }
      if session.stream != null {
        calls := calls + [DestroyStream(session.stream)];
        session.stream := null;
      }
      if session.clientSocket >= 0 {
        calls := calls + CloseCalls(session.clientSocket);
        session.clientSocket := -1;
      }
      session.service := null;
    }

    /**
     * app_service_close_session, reached through the session's own service:
     * removes exactly that record, the others keeping their order and
     * resources, decrements the count and cleans the record up.
     */
    method CloseSession(ctx: Session) returns (calls: seq<Call>)
      requires Valid() && ctx in sessions
      modifies this, sessions
      ensures Valid()
      ensures sessions == old(sessions[..Position(ctx)] + sessions[Position(ctx) + 1..])
      ensures sessionCount == old(sessionCount) - 1
      ensures calls == CleanupCalls(old(ctx.Held()), userData)
      ensures ctx.Held() == Resources(null, null, -1) && ctx.service == null
      ensures HeldOf(sessions) == old(HeldOf(sessions)[..Position(ctx)] + HeldOf(sessions)[Position(ctx) + 1..])
      ensures name == old(name) && maxConnections == old(maxConnections) && userData == old(userData)
      ensures listenSocket == old(listenSocket) && listenId == old(listenId)
    {
      ghost var p := Position(ctx);
      ghost var s0 := sessions;
      ghost var held0 := HeldOf(sessions);
      ghost var rest := held0[..p] + held0[p + 1..];
      assert held0[p] == ctx.Held();
      Neighbours(p);
      NoRepeatsWithout(sessions, p);
      Unlink(ctx, p);
      ghost var s1 := sessions;
      forall i | 0 <= i < |s1|
        ensures s1[i].service == this && s1[i] != ctx && s1[i].Held() == rest[i]
      {
        var j := if i < p then i else i + 1;
        assert s1[i] == s0[j];
        assert old(s0[j].Held()) == held0[j];
      }
      calls := Cleanup(ctx);
      assert HeldOf(sessions) == rest by {
        forall k | 0 <= k < |s1|
          ensures HeldOf(s1)[k] == rest[k]
        {
          assert s1[k] != ctx;
        }
      }
      HoldingWithout(held0, p);
    }

    /** The unlinking steps of app_service_close_session, for the record at position p. */
    method Unlink(ctx: Session, ghost p: nat)
      requires Linked() && p < |sessions| && sessions[p] == ctx
      modifies this`sessionCount, this`firstSession, this`lastSession, this`sessions
      modifies Present(ctx.prev)`next, Present(ctx.next)`prev
      ensures Linked()
      ensures sessions == old(sessions[..p] + sessions[p + 1..])
      ensures sessionCount == old(sessionCount) - 1
    {
      ghost var s0 := sessions;
      ghost var l0 := LinksOf(sessions);
      Neighbours(p);
      var prev, next := ctx.prev, ctx.next;
      sessionCount := sessionCount - 1;
      if next != null {
        SetPrev(next, p + 1, prev);
      } else {
        lastSession := prev;
      }
      if prev != null {
        SetNext(prev, p - 1, next);
      } else {
        firstSession := next;
      }
      ghost var s1 := s0[..p] + s0[p + 1..];
      assert LinksOf(s0) == Rewired(l0, p);
      LinksWithout(s0, p);
      assert LinksOf(s1) == Unlinked(l0, p);
      UnlinkKeepsLinks(s0, l0, p);
      NoRepeatsWithout(s0, p);
      sessions := s1;
    }

    /** Sets the prev link of the record at position k. */
    method SetPrev(x: Session, ghost k: nat, v: Session?)
      requires NoRepeats(sessions) && k < |sessions| && sessions[k] == x
      modifies x`prev
      ensures LinksOf(sessions) == old(LinksOf(sessions))[k := (v, x.next)]
    {
      ghost var l0 := LinksOf(sessions);
      x.prev := v;
      forall i | 0 <= i < |sessions|
        ensures LinksOf(sessions)[i] == l0[k := (v, x.next)][i]
      {
        SameAt(sessions, i, k);
      }
    }

    /** Sets the next link of the record at position k. */
    method SetNext(x: Session, ghost k: nat, v: Session?)
      requires NoRepeats(sessions) && k < |sessions| && sessions[k] == x
      modifies x`next
      ensures LinksOf(sessions) == old(LinksOf(sessions))[k := (x.prev, v)]
    {
      ghost var l0 := LinksOf(sessions);
      x.next := v;
      forall i | 0 <= i < |sessions|
        ensures LinksOf(sessions)[i] == l0[k := (x.prev, v)][i]
      {
        SameAt(sessions, i, k);
      }
    }

    /**
     * app_service_destroy: closes the sessions from the tail until none is
     * left, then drops the listen interest and closes the listening socket.
     */
    method Destroy(reactor: Reactor) returns (calls: seq<Call>)
      requires Valid() && reactor.Valid()
      modifies this, sessions, reactor.Repr
      ensures sessions == [] && sessionCount == 0 && firstSession == null && lastSession == null
      ensures calls == DrainCalls(old(HeldOf(sessions)), userData) + CloseCalls(old(listenSocket))
      ensures reactor.Valid() && reactor.Snapshot() == Apply(old(reactor.Snapshot()), DropIo(old(listenId)))
      ensures listenId == 0 && listenSocket == -1 && name == None
    {
      calls := Drain();
      reactor.UnregisterIo(listenId);
      listenId := 0;
      calls := calls + CloseCalls(listenSocket);
      listenSocket := -1;
      name := None;
    }

    /** The loop of app_service_destroy: closes the tail session until the list is empty. */
    method Drain() returns (calls: seq<Call>)
      requires Valid()
      modifies this, sessions
      ensures sessions == [] && sessionCount == 0 && firstSession == null && lastSession == null
      ensures calls == DrainCalls(old(HeldOf(sessions)), userData)
      ensures userData == old(userData) && listenSocket == old(listenSocket) && listenId == old(listenId)
    {
      ghost var rs := HeldOf(sessions);
      calls := [];
      while lastSession != null
        invariant Valid()
        invariant |sessions| <= |rs| && sessions == old(sessions)[..|sessions|] && HeldOf(sessions) == rs[..|sessions|]
        invariant userData == old(userData) && listenSocket == old(listenSocket) && listenId == old(listenId)
        invariant calls + DrainCalls(rs[..|sessions|], userData) == DrainCalls(rs, userData)
        decreases |sessions|
      {
        ghost var before := calls;
        var closed := CloseLast(rs);
        calls := calls + closed;
        assert calls + DrainCalls(rs[..|sessions|], userData) == before + (closed + DrainCalls(rs[..|sessions|], userData));
      }
    }

    /** One turn of the loop of app_service_destroy: the tail session is closed. */
    method CloseLast(ghost rs: seq<Resources>) returns (closed: seq<Call>)
      requires Valid() && lastSession != null && |sessions| <= |rs| && HeldOf(sessions) == rs[..|sessions|]
      modifies this, sessions
      ensures Valid() && |sessions| == |old(sessions)| - 1 && sessions == old(sessions)[..|sessions|]
      ensures HeldOf(sessions) == rs[..|sessions|]
      ensures DrainCalls(rs[..|old(sessions)|], userData) == closed + DrainCalls(rs[..|sessions|], userData)
      ensures userData == old(userData) && listenSocket == old(listenSocket) && listenId == old(listenId)
    {
      ghost var n := |sessions|;
      assert lastSession.Held() == rs[n - 1];
      closed := CloseSession(lastSession);
      DrainPrefixStep(rs, n, userData);
    }

    /**
     * accept_callback as written, for a connection the create callback
     * declines: the record's ctx.service is never stored, so cleanup_session's
     * check that it belongs to this service meets whatever the allocation
     * left there (`leftover`) and aborts unless that happens to be this service.
     */
    method DeclineAsWritten(accepted: int, peer: Option<(string, int)>, leftover: Service?)
      returns (aborted: bool)
      requires Valid() && accepted >= 0 && sessionCount < maxConnections
      modifies this, lastSession
      ensures aborted == (leftover != this)
      ensures Valid() && sessions == old(sessions)
    {
      var session, calls;
      session, aborted, calls := Admit(accepted, peer, null, leftover);
    }

    /**
     * accept_callback as written, for a connection the create callback
     * accepts: the record joins the list with ctx.service still holding
     * `leftover`, so app_service_close_session on it would reach that value
     * instead of this service, and the list invariant no longer holds.
     */
    method AdmitAsWritten(accepted: int, peer: Option<(string, int)>, created: object, leftover: Service?)
      returns (session: Session)
      requires Valid() && accepted >= 0 && sessionCount < maxConnections && leftover != this
      modifies this, lastSession
      ensures session in sessions && session.service == leftover
      ensures !Valid()
    {
      var aborted, calls;
      session, aborted, calls := Admit(accepted, peer, created, leftover);
      assert sessions[|sessions| - 1] == session;
    }
  }
}
