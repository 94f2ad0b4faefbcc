/** Establishing a connection: who owns the WebRTC peer connection, and what the returned stream is.
    Every `await` is a call that requires an owned peer connection to be inside an armed guard, and
    that may report that the future was dropped there.  A method's guards live in its `Frame`, which
    is dropped on every exit. */
module Connection {
  import opened Common
  import opened TransportRace

  const PREFER_WINDOW_MS: nat := 2500

  class PeerConnection {
    const relayOnly: bool
    var closed: bool

    constructor (relayOnly: bool)
      ensures !closed && this.relayOnly == relayOnly
    {
      this.relayOnly := relayOnly;
      closed := false;
    }

    method CloseDetached()
      modifies this
      ensures closed
    {
      closed := true;
    }
  }

  datatype Stream = TcpStream | KcpStream(v6: bool) | RelayStream | WebRtcStream(pc: PeerConnection)

  datatype Label = TCP | UDP | IPv6 | WebRTC | Relay | WebSocket

  /** `Raw` before the secure handshake; afterwards the stream is keyed to the verified peer identity,
      runs without encryption although an identity was known, or had no identity to bind to. */
  datatype Security = Raw | Keyed | Plain | NoIdentity

  /** A connection with its KCP handle, its label, whether it is direct, the last answer ICE gave to
      "is the nominated pair relayed?", and the outcome of the secure handshake. */
  datatype Won = Won(conn: Stream, kcp: bool, typ: Label, direct: bool, relayedPair: Option<bool>,
                     security: Security)

  /** The settings every decision below reads. */
  datatype Setup = Setup(peerRelay: bool, proxy: bool, ws: bool, turn: bool,
                         tcpPunch: bool, udpPunch: bool, ipv6Punch: bool, webrtc: bool)
  {
    predicate PolicyRelay() { peerRelay || proxy }

    predicate ForceRelay() { PolicyRelay() || ws }

    predicate TcpPunchAllowed() { tcpPunch || !(udpPunch || ipv6Punch || webrtc) }

    predicate ShouldCreateOfferer() { webrtc && !proxy && !(PolicyRelay() && !turn) }

    function RelayLabel(): (l: Label) { if ws then WebSocket else Relay }
  }

  /** The label names the transport of the stream. */
  predicate LabelFits(w: Won) {
    match w.conn
    case TcpStream => w.typ == TCP
    case KcpStream(v6) => w.typ == (if v6 then IPv6 else UDP)
    case RelayStream => w.typ == Relay || w.typ == WebSocket
    case WebRtcStream(_) => w.typ == WebRTC
  }

  /** A direct flag is backed by a direct transport or by ICE having reported a non-TURN pair. */
  predicate DirectFits(w: Won) {
    w.direct ==> !w.conn.RelayStream? && (w.conn.WebRtcStream? ==> w.relayedPair == Some(false))
  }

  /** The handshake was done on this stream, and a WebRTC stream is never used unbound when the peer
      has a verified identity. */
  predicate SecurityFits(w: Won) {
    w.security != Raw && (w.conn.WebRtcStream? ==> w.security != Plain)
  }

  predicate KcpFits(w: Won) { w.kcp <==> w.conn.KcpStream? }

  /** Replacing the stream by a relay, as the relay override and the secure-failure fallback do. */
  function ReplacedByRelay(w: Won, typ: Label): (r: Won)
  {
    w.(conn := RelayStream, typ := typ, direct := false, security := Raw)
  }

  /** The replacement always gets label and direct flag right; the KCP handle, which it does not
      clear, fits exactly when the replaced connection had none. */
  lemma RelayReplacementFits(w: Won, cfg: Setup)
    ensures var r := ReplacedByRelay(w, cfg.RelayLabel());
            LabelFits(r) && DirectFits(r) && !r.direct && (KcpFits(r) <==> !w.kcp)
  {
  }

  datatype Attempt = TcpAttempt | KcpAttempt(v6: bool) | RelayAttempt | WebRtcAttempt(pc: PeerConnection)

  /** The successes an attempt can end in.  Relay-only ICE never reports a non-TURN pair. */
  predicate Yields(cfg: Setup, a: Attempt, w: Won) {
    match a
    case TcpAttempt => w == Won(TcpStream, false, TCP, true, None, Raw)
    case KcpAttempt(v6) => w == Won(KcpStream(v6), true, if v6 then IPv6 else UDP, true, None, Raw)
    case RelayAttempt => w == Won(RelayStream, false, cfg.RelayLabel(), false, None, Raw)
    case WebRtcAttempt(pc) =>
      && w == Won(WebRtcStream(pc), false, WebRTC, w.relayedPair == Some(false), w.relayedPair, Raw)
      && (pc.relayOnly ==> w.relayedPair != Some(false))
  }

  predicate CanObserve(cfg: Setup, attempts: seq<Attempt>, schedule: seq<Event<Won>>)
    requires attempts != []
  {
    && Legal(|attempts| - 1, schedule)
    && forall i | 0 <= i < |schedule| && schedule[i].Completes? && schedule[i].outcome.Ok? ::
        schedule[i].attempt < |attempts| && Yields(cfg, attempts[schedule[i].attempt], schedule[i].outcome.conn)
  }

  ghost predicate YieldedByOne(cfg: Setup, attempts: seq<Attempt>, w: Won) {
    exists i :: 0 <= i < |attempts| && Yields(cfg, attempts[i], w)
  }

  // ----- awaiting

  datatype Outcome = WasDropped | Failure | Success

  /** The guards among the locals of one running future; a guard is armed iff its slot is not null. */
  class Frame {
    var webrtcOfferer: PeerConnection?
    var taken: PeerConnection?
    var webrtcGuard: PeerConnection?

    // what the awaits of this future have recorded
    ghost var last: Outcome  // how the latest one ended
    ghost var io: Outcome  // how the latest plain one ended
    ghost var seen: seq<Event<Won>>  // what the race of the transports observed
    ghost var picked: Option<Won>  // what it picked
    ghost var asked: nat  // how often a relay was requested
    ghost var applied: Option<Outcome>  // how applying the peer's answer ended
    ghost var added: nat  // how many remote candidates were added
    ghost var sent: nat  // how many punch requests were sent

    constructor (webrtcOfferer: PeerConnection?, webrtcGuard: PeerConnection?)
      ensures this.webrtcOfferer == webrtcOfferer && this.webrtcGuard == webrtcGuard && taken == null
      ensures Unrecorded() && added == sent == 0
    {
      this.webrtcOfferer, this.webrtcGuard, taken := webrtcOfferer, webrtcGuard, null;
      picked, asked, applied, added, sent := None, 0, None, 0, 0;
    }

    /** Nothing was picked, requested or applied so far. */
    ghost predicate Unrecorded()
      reads this
    {
      picked == None && asked == 0 && applied == None
    }

    predicate Guards(pc: PeerConnection)
      reads this
    {
      pc == webrtcOfferer || pc == taken || pc == webrtcGuard
    }

    /** Nothing but `pc` is in a slot. */
    predicate Only(pc: PeerConnection?)
      reads this
    {
      && (webrtcOfferer == null || webrtcOfferer == pc)
      && (taken == null || taken == pc)
      && (webrtcGuard == null || webrtcGuard == pc)
    }

    /** Leaving the scope: every armed guard closes its peer connection. */
    method Drop(ghost pc: PeerConnection?)
      requires Only(pc)
      modifies this, if pc == null then {} else {pc}
      ensures pc != null ==> pc.closed == (old(pc.closed) || old(Guards(pc)))
    {
      if webrtcGuard != null { webrtcGuard.CloseDetached(); }
      if taken != null { taken.CloseDetached(); }
      if webrtcOfferer != null { webrtcOfferer.CloseDetached(); }
      webrtcGuard, taken, webrtcOfferer := null, null, null;
    }
  }

  /** No live peer connection is outside a guard. */
  predicate Covered(f: Frame, pc: PeerConnection?)
    reads f, if pc == null then {} else {pc}
  {
    f.Only(pc) && (pc != null ==> pc.closed || f.Guards(pc))
  }

  datatype Polled<+T> = Dropped | Ready(result: Completion<T>)

  function OutcomeOf<T>(r: Polled<T>): (o: Outcome) {
    if r.Dropped? then WasDropped else if r.result.Ok? then Success else Failure
  }

  /** Awaiting anything that can succeed or fail. */
  method AwaitIo(ghost f: Frame, ghost pc: PeerConnection?) returns (r: Polled<()>)
    requires Covered(f, pc)
    modifies f`last, f`io
    ensures f.last == f.io == OutcomeOf(r)
  {
    r := *;
    f.last := OutcomeOf(r);
    f.io := f.last;
  }

  /** Awaiting `request_relay`. */
  method AwaitRelayRequest(ghost f: Frame, ghost pc: PeerConnection?) returns (r: Polled<()>)
    requires Covered(f, pc)
    modifies f`last, f`io, f`asked
    ensures f.last == OutcomeOf(r) && f.asked == old(f.asked) + 1
  {
    r := AwaitIo(f, pc);
    f.asked := f.asked + 1;
  }

  /** Awaiting that a punch request is sent. */
  method AwaitPunchRequest(ghost f: Frame, ghost pc: PeerConnection?) returns (r: Polled<()>)
    requires Covered(f, pc)
    modifies f`last, f`io, f`sent
    ensures f.last == OutcomeOf(r) && f.sent == old(f.sent) + 1
  {
    r := AwaitIo(f, pc);
    f.sent := f.sent + 1;
  }

  /** Awaiting `set_remote_endpoint`. */
  method AwaitAnswer(ghost f: Frame, ghost pc: PeerConnection?) returns (r: Polled<()>)
    requires Covered(f, pc)
    modifies f`last, f`io, f`applied
    ensures f.last == OutcomeOf(r) && f.applied == Some(OutcomeOf(r))
  {
    r := AwaitIo(f, pc);
    f.applied := Some(f.last);
  }

  /** Awaiting `add_remote_ice_candidate`, whose failure is only logged. */
  method AwaitCandidate(ghost f: Frame, ghost pc: PeerConnection?) returns (r: Polled<()>)
    requires Covered(f, pc)
    modifies f`last, f`io, f`added
    ensures f.last == OutcomeOf(r) && f.added == old(f.added) + 1
  {
    r := AwaitIo(f, pc);
    f.added := f.added + 1;
  }

  /** Awaiting `is_relayed` on a WebRTC stream. */
  method AwaitPair(ghost f: Frame, pc: PeerConnection) returns (dropped: bool, relayed: Option<bool>)
    requires Covered(f, pc)
    modifies f`last
    ensures pc.relayOnly ==> relayed != Some(false)
    ensures f.last == if dropped then WasDropped else Success
  {
    dropped, relayed := *, *;
    if pc.relayOnly && relayed == Some(false) {
      relayed := Some(true);
    }
    f.last := if dropped then WasDropped else Success;
  }

  /** `w` comes first in what was observed. */
  predicate FirstSuccess(h: seq<Event<Won>>, w: Won) {
    && h != [] && Last(h).Completes? && Last(h).outcome == Ok(w)
    && forall i | 0 <= i < |h| - 1 && h[i].Completes? :: h[i].outcome.Err?
  }

  /** `w` is direct, or no direct connection was observed and either nothing was in flight any more or
      2500 ms had passed since a relayed one. */
  ghost predicate LastResort(others: nat, h: seq<Event<Won>>, w: Won) {
    w.direct ||
    (&& h != []
     && (forall i | 0 <= i < |h| && h[i].Completes? && h[i].outcome.Ok? :: !h[i].outcome.conn.direct)
     && (Settled(others, h) || exists i :: 0 <= i < |h| && Last(h).at >= h[i].at + 2500
                                           && h[i].Completes? && h[i].outcome.Ok?))
  }

  /** Awaiting the race; a race that never decides can only be left by being dropped. */
  method AwaitRace(cfg: Setup, attempts: seq<Attempt>, ghost f: Frame, ghost pc: PeerConnection?)
    returns (r: Polled<Won>)
    requires |attempts| >= 2 && Covered(f, pc)
    modifies f`last, f`seen
    ensures f.last == OutcomeOf(r)
    ensures r.Ready? && r.result.Ok? ==> YieldedByOne(cfg, attempts, r.result.conn)
    ensures r.Ready? && r.result.Ok? ==> LastResort(|attempts| - 1, f.seen, r.result.conn)
  {
    assert CanObserve(cfg, attempts, []);
    var schedule :| CanObserve(cfg, attempts, schedule);
    assert CanObserve(cfg, attempts, schedule);
    var p := Params(|attempts| - 1, PREFER_WINDOW_MS, (w: Won) => w.direct);
    var verdict, used, _ := Race(p, schedule);
    f.seen := schedule[..used];
    match verdict {
      case None => r := Dropped;
      case Some(Failed(we, oe)) => r := Ready(Err(we + oe));
      case Some(Connected(w)) =>
        ghost var i := VerdictWasObserved(p, schedule[..used]);
        assert schedule[..used][i] == schedule[i];
        LegalPrefix(|attempts| - 1, schedule, used);
        RelayIsLastResort(p, f.seen, w);
        r := Ready(Ok(w));
    }
    f.last := OutcomeOf(r);
  }

  lemma RelayIsLastResort(p: Params<Won>, h: seq<Event<Won>>, w: Won)
    requires Legal(p.others, h) && Undecided(p, h) && Decided(p, h) && Verdict(p, h) == Connected(w)
    requires p.windowMs == PREFER_WINDOW_MS && forall v: Won :: p.isP2P(v) == v.direct
    ensures LastResort(p.others, h, w)
  {
    if !w.direct {
      RelayOnlyAsLastResort(p, h);
      forall i | 0 <= i < |h| && h[i].Completes? && h[i].outcome.Ok? ensures !h[i].outcome.conn.direct {
        assert !IsDirect(p, h[i]);
      }
    }
  }

  method AwaitSelectOk(cfg: Setup, attempts: seq<Attempt>, ghost f: Frame, ghost pc: PeerConnection?)
    returns (r: Polled<Won>)
    requires |attempts| >= 1 && Covered(f, pc)
    modifies f`last, f`seen
    ensures f.last == OutcomeOf(r)
    ensures r.Ready? && r.result.Ok? ==> YieldedByOne(cfg, attempts, r.result.conn)
    ensures r.Ready? && r.result.Ok? ==> FirstSuccess(f.seen, r.result.conn)
    ensures r.Ready? && r.result.Ok? && |attempts| == 1 ==> LastResort(0, f.seen, r.result.conn)
  {
    assert CanObserve(cfg, attempts, []);
    var schedule :| CanObserve(cfg, attempts, schedule);
    assert CanObserve(cfg, attempts, schedule);
    var first, used := SelectOk(|attempts| - 1, schedule);
    f.seen := schedule[..used];
    r := if first.None? then Dropped else Ready(first.value);
    if r.Ready? && r.result.Ok? && |attempts| == 1 {
      OnlyAttemptSettles(f.seen, r.result.conn);
    }
    f.last := OutcomeOf(r);
  }

  lemma OnlyAttemptSettles(h: seq<Event<Won>>, w: Won)
    requires FirstSuccess(h, w) && Last(h).attempt == 0
    ensures LastResort(0, h, w)
  {
    CompletedIsNotPending(0, h, |h| - 1);
    PendingWithin(0, h);
    assert Settled(0, h);
  }

  // ----- the secure handshake

  /** What the peer answers to the handshake; `SignedId` carries the fingerprint it signed. */
  datatype Reply = Malformed | WrongType | Unverifiable | WrongId | SignedId(fingerprint: string)

  /** The peer's side of the handshake on one stream: its answer, and the fingerprint that the channel
      itself shows, if it shows one. */
  datatype Side = Side(reply: Reply, fingerprint: Option<string>)

  /** The peer of one request: whether the rendezvous answer carried a verifiable identity, and its side of
      the handshake on a WebRTC stream and on any other stream. */
  datatype Remote = Remote(trusted: bool, onWebRtc: Side, onOther: Side)
  {
    function On(conn: Stream): (s: Side) { if conn.WebRtcStream? then onWebRtc else onOther }
  }

  /** The peer has signed the fingerprint that the channel shows. */
  predicate Bound(s: Side) {
    s.reply.SignedId? && s.reply.fingerprint != "" && s.fingerprint == Some(s.reply.fingerprint)
  }

  /** A peer with a verifiable identity is keyed exactly when it signed its id, and a WebRTC stream only
      when the signature covers the channel. */
  predicate Secured(remote: Remote, w: Won) {
    if !remote.trusted then w.security == NoIdentity
    else
      && w.security == (if remote.On(w.conn).reply.SignedId? then Keyed else Plain)
      && (w.conn.WebRtcStream? ==> Bound(remote.onWebRtc))
  }

  /** `secure_connection` */
  method AwaitSecure(ghost f: Frame, ghost pc: PeerConnection?, remote: Remote, w: Won) returns (r: Polled<Won>)
    requires Covered(f, pc)
    modifies f`last, f`io
    ensures f.last == OutcomeOf(r)
    ensures r.Ready? && r.result.Ok? ==>
              && r.result.conn == w.(security := r.result.conn.security)
              && SecurityFits(r.result.conn) && Secured(remote, r.result.conn)
    ensures r.Ready? && r.result.Ok? ==>
              var side := if w.conn.WebRtcStream? then remote.onWebRtc else remote.onOther;
              match r.result.conn.security
              case Raw => false
              case NoIdentity => !remote.trusted
              case Plain => remote.trusted && !side.reply.SignedId? && !w.conn.WebRtcStream?
              case Keyed =>
                && remote.trusted && side.reply.SignedId?
                && (w.conn.WebRtcStream? ==> side.fingerprint == Some(side.reply.fingerprint) != Some(""))
    ensures r.Ready? && r.result.Err? ==>
              f.io == Failure || (remote.trusted && w.conn.WebRtcStream? && !Bound(remote.onWebRtc))
  {
    var io := AwaitIo(f, pc);  // the empty message, respectively the peer's first message
    if io.Dropped? { return Dropped; }
    if io.result.Err? { return Ready(Err(io.result.error)); }
    if !remote.trusted {
      return Ready(Ok(w.(security := NoIdentity)));
    }
    var side, isWebRtc := remote.On(w.conn), w.conn.WebRtcStream?;
    if side.reply.SignedId? && isWebRtc {
      io := AwaitIo(f, pc);  // the fingerprint of the channel itself
      if io.Dropped? { return Dropped; }
    }
    if isWebRtc && !Matching(side) {
      f.last := Failure;
      return Ready(Err("refusing unbound channel"));
    }
    io := AwaitIo(f, pc);  // our key, respectively an empty message
    if io.Dropped? { return Dropped; }
    if io.result.Err? { return Ready(Err(io.result.error)); }
    return Ready(Ok(w.(security := if side.reply.SignedId? then Keyed else Plain)));
  }

  /** The comparison of the two fingerprints. */
  predicate Matching(s: Side) {
    match s.reply
    case SignedId(signed) => s.fingerprint.Some? && !(signed == "" || signed != s.fingerprint.value)
    case _ => false
  }

  /** `request_relay` followed by the handshake on the new stream. */
  method AwaitFallbackRelay(ghost f: Frame, ghost pc: PeerConnection?, remote: Remote, w: Won, typ: Label)
    returns (r: Polled<Won>)
    requires Covered(f, pc)
    modifies f`last, f`io, f`asked
    ensures f.last == OutcomeOf(r) && f.asked == old(f.asked) + 1
    ensures r.Ready? && r.result.Ok? ==>
              && r.result.conn == ReplacedByRelay(w, typ).(security := r.result.conn.security)
              && SecurityFits(r.result.conn) && Secured(remote, r.result.conn)
  {
    var io := AwaitRelayRequest(f, pc);
    if io.Dropped? { return Dropped; }
    if io.result.Err? { return Ready(Err(io.result.error)); }
    r := AwaitSecure(f, pc, remote, ReplacedByRelay(w, typ));
  }

  // ----- exits

  datatype Exit = Returned(won: Won) | Errored | Cancelled

  function Unsuccessful<T>(r: Polled<T>): (e: Exit) { if r.Dropped? then Cancelled else Errored }

  predicate Backs(e: Exit, pc: PeerConnection) {
    e.Returned? && e.won.conn == WebRtcStream(pc)
  }

  /** A WebRTC stream is only ever built on the offerer that came in. */
  predicate OnlyBacks(e: Exit, pc: PeerConnection?) {
    e.Returned? && e.won.conn.WebRtcStream? ==> e.won.conn.pc == pc
  }

  /** State at the end of a body, before its locals are dropped. */
  predicate ReadyToDrop(f: Frame, pc: PeerConnection?, e: Exit)
    reads f, if pc == null then {} else {pc}
  {
    && OnlyBacks(e, pc)
    && f.Only(pc)
    && (pc != null ==> if Backs(e, pc) then !pc.closed && !f.Guards(pc) else pc.closed || f.Guards(pc))
  }

  /** The offerer is closed, or backs the returned stream, and never both. */
  predicate ClosedOrBacking(pc: PeerConnection?, e: Exit)
    reads if pc == null then {} else {pc}
  {
    OnlyBacks(e, pc) && (pc != null ==> (pc.closed <==> !Backs(e, pc)))
  }

  predicate Fits(w: Won) {
    LabelFits(w) && DirectFits(w)
  }

  predicate Finished(w: Won) {
    Fits(w) && SecurityFits(w)
  }

  /** The punches a request may make. */
  datatype Punches = Punches(tcp: bool, udp: bool, v6: bool)

  predicate Permits(may: Punches, conn: Stream) {
    match conn
    case TcpStream => may.tcp
    case KcpStream(v6) => if v6 then may.v6 else may.udp
    case _ => true
  }

  /** What a request may return that was given `offerer`, and may make some punches: TCP only without an
      offer. */
  predicate RequestResult(w: Won, offerer: PeerConnection?, may: Punches) {
    && Finished(w) && KcpFits(w)
    && (w.conn.WebRtcStream? ==> w.conn.pc == offerer)
    && Permits(may, w.conn) && (w.conn.TcpStream? ==> offerer == null)
  }

  // ----- connect

  function DirectAttempts(may: Punches): (a: seq<Attempt>)
    ensures TcpAttempt in a <==> may.tcp
    ensures KcpAttempt(false) in a <==> may.udp
    ensures KcpAttempt(true) in a <==> may.v6
    ensures forall x | x in a :: x.TcpAttempt? || x.KcpAttempt?
  {
    (if may.tcp then [TcpAttempt] else [])
    + (if may.udp then [KcpAttempt(false)] else [])
    + (if may.v6 then [KcpAttempt(true)] else [])
  }

  function PunchAttempts(pc: PeerConnection?, may: Punches): (a: seq<Attempt>) {
    (if pc == null then [] else [WebRtcAttempt(pc)]) + DirectAttempts(may)
  }

  lemma DirectWinner(cfg: Setup, pc: PeerConnection?, may: Punches, w: Won)
    requires YieldedByOne(cfg, PunchAttempts(pc, may), w)
    ensures Fits(w) && KcpFits(w) && !w.conn.RelayStream? && Permits(may, w.conn)
    ensures w.conn.WebRtcStream? ==> pc != null && Yields(cfg, WebRtcAttempt(pc), w)
  {
    var attempts := PunchAttempts(pc, may);
    var i :| 0 <= i < |attempts| && Yields(cfg, attempts[i], w);
    assert attempts[i].WebRtcAttempt? || attempts[i] in DirectAttempts(may);
  }

  /** The transports of the punch path. */
  method AwaitDirect(cfg: Setup, ghost f: Frame, pc: PeerConnection?, may: Punches) returns (r: Polled<Won>)
    requires Covered(f, pc)
    modifies f`last, f`seen, f`picked
    ensures f.last == OutcomeOf(r)
    ensures f.picked == if r.Ready? && r.result.Ok? then Some(r.result.conn) else None
    ensures r.Ready? && r.result.Ok? ==>
              var w := r.result.conn;
              && Fits(w) && KcpFits(w) && !w.conn.RelayStream? && Permits(may, w.conn)
              && (w.conn.WebRtcStream? ==> pc != null && Yields(cfg, WebRtcAttempt(pc), w))
    ensures pc != null || may.tcp || may.udp || may.v6 || r == Ready(Err("No direct transport available"))
    ensures r.Ready? && r.result.Ok? ==> LastResort(|DirectAttempts(may)|, f.seen, r.result.conn)
  {
    var direct, attempts := DirectAttempts(may), PunchAttempts(pc, may);
    f.picked := None;
    if attempts == [] {
      f.last := Failure;
      return Ready(Err("No direct transport available"));
    }
    if pc != null && direct != [] {
      r := AwaitRace(cfg, attempts, f, pc);
    } else {
      r := AwaitSelectOk(cfg, attempts, f, pc);
    }
    if r.Ready? && r.result.Ok? {
      DirectWinner(cfg, pc, may, r.result.conn);
      f.picked := Some(r.result.conn);
    }
  }

  /** When the relay server is known, a request does not give up before it has asked for a relay, unless a
      direct connection was made and its handshake failed. */
  ghost predicate RelayWasTried(f: Frame, e: Exit, override: bool)
    reads f
  {
    e.Errored? && (f.picked.None? || f.picked.value.conn.WebRtcStream? || override) ==> f.asked == 1
  }

  /** A relay is returned exactly when one was requested, and anything else is what the race picked. */
  ghost predicate ReturnsPicked(f: Frame, e: Exit)
    reads f
  {
    e.Returned? && f.asked == 0 ==>
      && f.picked.Some?
      && var (w, p) := (e.won, f.picked.value);
      && w.conn == p.conn && w.typ == p.typ && w.kcp == p.kcp && (w.direct ==> p.direct)
  }

  /** The first stream of the punch path: what the race picked, or a relay when nothing was or one is
      forced. */
  method AwaitStream(cfg: Setup, f: Frame, pc: PeerConnection?, relayServer: bool, may: Punches)
    returns (r: Polled<Won>)
    requires Covered(f, pc) && f.Unrecorded()
    modifies f`last, f`io, f`seen, f`picked, f`asked
    ensures r.Dropped? <==> f.last == WasDropped
    ensures r.Ready? && r.result.Err? ==> f.last == Failure || (cfg.ForceRelay() && !relayServer)
    ensures f.asked <= if relayServer then 1 else 0
    ensures r.Ready? ==>
              (f.asked == 1 <==> relayServer && (f.picked.None? || (cfg.ForceRelay() && f.picked.value.typ != WebRTC)))
    ensures f.asked == 1 ==> f.picked.None? || cfg.ForceRelay()
    ensures r.Ready? && r.result.Err? ==> f.picked.None? || (cfg.ForceRelay() && f.picked.value.typ != WebRTC)
    ensures f.picked.Some? ==>
              var p := f.picked.value;
              && Fits(p) && KcpFits(p) && !p.conn.RelayStream? && Permits(may, p.conn)
              && (p.conn.WebRtcStream? ==> pc != null && Yields(cfg, WebRtcAttempt(pc), p))
    ensures r.Ready? && r.result.Ok? && f.asked == 0 ==>
              f.picked == Some(r.result.conn) && (cfg.ForceRelay() ==> r.result.conn.typ == WebRTC)
    ensures r.Ready? && r.result.Ok? && f.asked == 1 ==>
              var w := r.result.conn;
              && w.conn.RelayStream? && w.typ == Relay && Fits(w) && !w.direct
              && (!(cfg.ForceRelay() && (may.udp || may.v6)) ==> KcpFits(w))
  {
    r := AwaitDirect(cfg, f, pc, may);
    if r.Dropped? { return; }
    var w := if r.result.Ok? then r.result.conn else Won(RelayStream, false, Relay, false, None, Raw);
    if (cfg.ForceRelay() && w.typ != WebRTC) || r.result.Err? {
      if !relayServer { return Ready(Err("Failed to make direct connection to remote desktop")); }
      var io := AwaitRelayRequest(f, pc);
      if io.Dropped? { return Dropped; }
      if io.result.Err? { return Ready(Err(io.result.error)); }
      w := ReplacedByRelay(w, Relay);
    }
    return Ready(Ok(w));
  }

  /** The handshake on `w`; when it fails on a WebRTC stream, the offerer is closed and a relay takes its
      place, provided there is a `fallback`. */
  method AwaitSecured(f: Frame, pc: PeerConnection?, remote: Remote, w: Won, fallback: bool, typ: Label)
    returns (r: Polled<Won>)
    requires Covered(f, pc) && (w.conn.WebRtcStream? ==> pc != null && !pc.closed && f.webrtcGuard == pc)
    requires f.webrtcOfferer == f.taken == null && LabelFits(w)
    modifies f`webrtcGuard, f`last, f`io, f`asked, if pc == null then {} else {pc}
    ensures Covered(f, pc) && f.last == OutcomeOf(r)
    ensures old(f.asked) <= f.asked <= old(f.asked) + 1
    ensures f.asked > old(f.asked) ==> w.conn.WebRtcStream? && fallback
    ensures r.Ready? && r.result.Err? && w.conn.WebRtcStream? && fallback ==> f.asked > old(f.asked)
    ensures f.asked == old(f.asked) ==>
              f.webrtcGuard == old(f.webrtcGuard) && (pc != null ==> pc.closed == old(pc.closed))
    ensures r.Ready? && r.result.Ok? ==>
              var v := r.result.conn;
              && SecurityFits(v) && Secured(remote, v)
              && v == (if f.asked == old(f.asked) then w else ReplacedByRelay(w, typ)).(security := v.security)
  {
    r := AwaitSecure(f, pc, remote, w);
    if r.Ready? && r.result.Err? && w.typ == WebRTC && fallback {
      f.webrtcGuard.CloseDetached();
      f.webrtcGuard := null;
      r := AwaitFallbackRelay(f, pc, remote, w, typ);
    }
  }

  /** A secured WebRTC stream is asked for its pair once more and then leaves its guard. */
  method AwaitReturn(f: Frame, pc: PeerConnection?, w: Won) returns (e: Exit)
    requires Covered(f, pc) && f.webrtcOfferer == f.taken == null && LabelFits(w) && f.last != WasDropped
    requires w.conn.WebRtcStream? ==> pc != null && !pc.closed && f.webrtcGuard == pc == w.conn.pc
    modifies f`webrtcGuard, f`last
    ensures ReadyToDrop(f, pc, e) && !e.Errored? && (e.Cancelled? <==> f.last == WasDropped)
    ensures e.Returned? && !w.conn.WebRtcStream? ==> e.won == w
    ensures e.Returned? && w.conn.WebRtcStream? ==>
              var pair := e.won.relayedPair;
              && e.won == w.(relayedPair := pair, direct := w.direct && pair == Some(false))
              && (pc.relayOnly ==> pair != Some(false))
  {
    if w.typ != WebRTC {
      return Returned(w);
    }
    var dropped, relayed := AwaitPair(f, w.conn.pc);
    if dropped { return Cancelled; }
    f.webrtcGuard := null;  // secured: disarm
    return Returned(w.(relayedPair := relayed, direct := w.direct && relayed == Some(false)));
  }

  /** The rest of `connect` once there is a stream. */
  method SecureAndReturn(f: Frame, pc: PeerConnection?, remote: Remote, w: Won, fallback: bool) returns (e: Exit)
    requires Covered(f, pc) && f.webrtcOfferer == f.taken == null && Fits(w)
    requires w.conn.WebRtcStream? ==> pc != null && !pc.closed && f.webrtcGuard == pc == w.conn.pc
    modifies f`webrtcGuard, f`last, f`io, f`asked, if pc == null then {} else {pc}
    ensures ReadyToDrop(f, pc, e) && (e.Cancelled? <==> f.last == WasDropped) && (e.Errored? ==> f.last == Failure)
    ensures f.asked == old(f.asked) || (f.asked == old(f.asked) + 1 && w.conn.WebRtcStream? && fallback)
    ensures e.Errored? && w.conn.WebRtcStream? && fallback ==> f.asked > old(f.asked)
    ensures e.Returned? ==> Finished(e.won) && Secured(remote, e.won) && e.won.kcp == w.kcp
    ensures e.Returned? ==>
              if f.asked == old(f.asked)
              then e.won.conn == w.conn && e.won.typ == w.typ && (e.won.direct ==> w.direct)
              else e.won.conn == RelayStream && e.won.typ == Relay
    ensures e.Returned? && e.won.direct && pc != null && pc.relayOnly ==> !e.won.conn.WebRtcStream?
  {
    var polled := AwaitSecured(f, pc, remote, w, fallback, Relay);
    if OutcomeOf(polled) != Success { return Unsuccessful(polled); }
    e := AwaitReturn(f, pc, polled.result.conn);
  }

  method ConnectBody(cfg: Setup, f: Frame, pc: PeerConnection?, remote: Remote, relayServer: bool, may: Punches)
    returns (e: Exit)
    requires f.webrtcGuard == pc && f.taken == null && f.webrtcOfferer == null && f.Unrecorded()
    requires pc != null ==> !pc.closed && (cfg.PolicyRelay() ==> pc.relayOnly)
    modifies f, if pc == null then {} else {pc}
    ensures ReadyToDrop(f, pc, e)
    ensures e.Returned? ==> Finished(e.won) && Secured(remote, e.won) && Permits(may, e.won.conn)
    ensures e.Returned? && cfg.ForceRelay() ==> e.won.conn.RelayStream? || e.won.conn.WebRtcStream?
    ensures e.Returned? && cfg.PolicyRelay() ==> !e.won.direct
    ensures e.Returned? && !(cfg.ForceRelay() && (may.udp || may.v6)) ==> KcpFits(e.won)
    ensures e.Returned? && e.won.conn.RelayStream? ==> e.won.typ == Relay
    ensures e.Cancelled? <==> f.last == WasDropped
    ensures e.Errored? ==> f.last == Failure || (cfg.ForceRelay() && !relayServer)
    ensures f.asked <= if relayServer then 1 else 0
    ensures relayServer ==> RelayWasTried(f, e, cfg.ForceRelay())
    ensures ReturnsPicked(f, e) && (e.Returned? ==> (f.asked == 1 <==> e.won.conn.RelayStream?))
    ensures f.picked.Some? && !f.picked.value.conn.WebRtcStream? && !cfg.ForceRelay() ==> f.asked == 0
  {
    var io := AwaitIo(f, pc);  // the NAT type, when it is still unknown
    if io.Dropped? { return Cancelled; }
    var polled := AwaitStream(cfg, f, pc, relayServer, may);
    if OutcomeOf(polled) != Success { return Unsuccessful(polled); }
    e := SecureAndReturn(f, pc, remote, polled.result.conn, relayServer);
  }

  /** `connect`: the offerer that comes in disarmed is either kept by the result or closed. */
  method Connect(cfg: Setup, pc: PeerConnection?, remote: Remote, relayServer: bool, may: Punches) returns (e: Exit)
    requires pc != null ==> !pc.closed && (cfg.PolicyRelay() ==> pc.relayOnly)
    modifies if pc == null then {} else {pc}
    ensures ClosedOrBacking(pc, e)
    ensures e.Returned? ==> Finished(e.won) && Secured(remote, e.won) && Permits(may, e.won.conn)
    ensures e.Returned? && e.won.conn.RelayStream? ==> relayServer
    ensures e.Returned? && cfg.ForceRelay() ==> e.won.conn.RelayStream? || e.won.conn.WebRtcStream?
    ensures e.Returned? && cfg.PolicyRelay() ==> !e.won.direct
    ensures e.Returned? && !(cfg.ForceRelay() && (may.udp || may.v6)) ==> KcpFits(e.won)
  {
    var f := new Frame(null, pc);
    e := ConnectBody(cfg, f, pc, remote, relayServer, may);
    f.Drop(pc);
  }

  // ----- _start_inner

  /** Applying the peer's answer.  The awaits run on the stream borrowed from the guard; ownership
      leaves it only at the end, and an offerer that is not adopted is closed. */
  method AdoptOfferer(f: Frame, pc: PeerConnection?, answer: bool, buffered: nat)
    returns (adopted: PeerConnection?, dropped: bool)
    requires f.webrtcOfferer == pc && f.taken == null && f.webrtcGuard == null && f.applied == None
    requires pc != null ==> !pc.closed
    modifies f`webrtcOfferer, f`taken, f`last, f`io, f`applied, f`added, if pc == null then {} else {pc}
    ensures dropped ==> Covered(f, pc) && f.last == WasDropped
    ensures !dropped ==> f.webrtcOfferer == f.taken == f.webrtcGuard == null
    ensures !dropped ==> (adopted == null || adopted == pc) && (pc != null ==> (pc.closed <==> adopted == null))
    ensures !dropped && pc != null ==> (adopted == pc <==> answer && f.applied == Some(Success))
    ensures !dropped && pc != null && answer ==> f.applied == Some(Success) || f.applied == Some(Failure)
    ensures !dropped ==> f.added == old(f.added) + (if adopted == null then 0 else buffered)
  {
    adopted := null;
    if answer && f.webrtcOfferer != null {
      f.taken, f.webrtcOfferer := f.webrtcOfferer, null;
      var io := AwaitAnswer(f, pc);
      if io.Dropped? { return null, true; }
      if io.result.Ok? {
        for i := 0 to buffered
          invariant f.webrtcOfferer == null && f.taken == pc && f.webrtcGuard == null && !pc.closed
          invariant f.applied == Some(Success) && f.added == old(f.added) + i
        {
          io := AwaitCandidate(f, pc);
          if io.Dropped? { return null, true; }
        }
        adopted, f.taken := f.taken, null;
      } else {
        f.taken.CloseDetached();
        f.taken := null;
      }
    }
    if f.webrtcOfferer != null {
      f.webrtcOfferer.CloseDetached();
      f.webrtcOfferer := null;
    }
    return adopted, false;
  }

  lemma RelayedWinner(cfg: Setup, attempts: seq<Attempt>, pc: PeerConnection?, v6: bool, w: Won)
    requires forall a | a in attempts ::
               a == RelayAttempt || (v6 && a == KcpAttempt(true)) || (pc != null && a == WebRtcAttempt(pc))
    requires YieldedByOne(cfg, attempts, w)
    ensures Fits(w) && KcpFits(w) && Permits(Punches(false, false, v6), w.conn)
    ensures w.conn.RelayStream? ==> w.typ == if cfg.ws then WebSocket else Relay
    ensures w.direct ==> v6 || w.conn.WebRtcStream?
    ensures w.conn.WebRtcStream? ==> pc != null && Yields(cfg, WebRtcAttempt(pc), w)
  {
    var i :| 0 <= i < |attempts| && Yields(cfg, attempts[i], w);
    assert attempts[i] in attempts;
  }

  /** The race of the relay-response path. */
  method AwaitRelayed(cfg: Setup, ghost f: Frame, pc: PeerConnection?, v6: bool) returns (r: Polled<Won>)
    requires Covered(f, pc)
    modifies f`last, f`seen, f`picked
    ensures f.last == OutcomeOf(r)
    ensures f.picked == if r.Ready? && r.result.Ok? then Some(r.result.conn) else None
    ensures r.Ready? && r.result.Ok? ==>
              var w := r.result.conn;
              && Fits(w) && KcpFits(w) && Permits(Punches(false, false, v6), w.conn)
              && (w.conn.RelayStream? ==> w.typ == if cfg.ws then WebSocket else Relay)
              && (w.direct ==> v6 || w.conn.WebRtcStream?)
              && (w.conn.WebRtcStream? ==> pc != null && Yields(cfg, WebRtcAttempt(pc), w))
              && (if pc == null || cfg.PolicyRelay() then FirstSuccess(f.seen, w)
                  else LastResort(if v6 then 2 else 1, f.seen, w))
  {
    var rest := (if v6 then [KcpAttempt(true)] else []) + [RelayAttempt];
    var attempts := rest;
    if pc == null {
      r := AwaitSelectOk(cfg, attempts, f, pc);
    } else if cfg.PolicyRelay() {
      attempts := rest + [WebRtcAttempt(pc)];
      r := AwaitSelectOk(cfg, attempts, f, pc);
    } else {
      attempts := [WebRtcAttempt(pc)] + rest;
      r := AwaitRace(cfg, attempts, f, pc);
    }
    f.picked := None;
    if r.Ready? && r.result.Ok? {
      RelayedWinner(cfg, attempts, pc, v6, r.result.conn);
      f.picked := Some(r.result.conn);
    }
  }

  /** The rest of the relay-response path once there is a stream. */
  method SecureRelayed(cfg: Setup, f: Frame, pc: PeerConnection?, remote: Remote, w: Won) returns (e: Exit)
    requires Covered(f, pc) && f.webrtcOfferer == f.taken == null && Fits(w)
    requires w.conn.WebRtcStream? ==> pc != null && !pc.closed && f.webrtcGuard == pc == w.conn.pc
    modifies f`webrtcGuard, f`last, f`io, f`asked, if pc == null then {} else {pc}
    ensures ReadyToDrop(f, pc, e) && (e.Cancelled? <==> f.last == WasDropped) && (e.Errored? ==> f.last == Failure)
    ensures f.asked == old(f.asked) || (f.asked == old(f.asked) + 1 && w.conn.WebRtcStream?)
    ensures e.Errored? && w.conn.WebRtcStream? ==> f.asked > old(f.asked)
    ensures e.Returned? ==> Finished(e.won) && Secured(remote, e.won) && e.won.kcp == w.kcp
    ensures e.Returned? ==>
              if f.asked == old(f.asked)
              then e.won.conn == w.conn && e.won.typ == w.typ && e.won.direct == w.direct
              else e.won.conn == RelayStream && !e.won.direct && e.won.typ == if cfg.ws then WebSocket else Relay
  {
    var polled := AwaitSecured(f, pc, remote, w, true, cfg.RelayLabel());
    if OutcomeOf(polled) != Success { return Unsuccessful(polled); }
    if polled.result.conn.typ == WebRTC {
      f.webrtcGuard := null;  // secured: disarm
    }
    return Returned(polled.result.conn);
  }

  method RelayResponseBody(cfg: Setup, f: Frame, pc: PeerConnection?, remote: Remote, answer: bool,
                           buffered: nat, v6: bool)
    returns (e: Exit)
    requires f.webrtcOfferer == pc && f.taken == null && f.webrtcGuard == null && f.Unrecorded()
    requires pc != null ==> !pc.closed && (cfg.PolicyRelay() ==> pc.relayOnly)
    modifies f, if pc == null then {} else {pc}
    ensures ReadyToDrop(f, pc, e) && f.sent == old(f.sent)
    ensures e.Returned? ==> RequestResult(e.won, pc, Punches(false, false, v6)) && Secured(remote, e.won)
    ensures e.Returned? && e.won.conn.WebRtcStream? ==> answer
    ensures e.Returned? && e.won.conn.RelayStream? ==> e.won.typ == if cfg.ws then WebSocket else Relay
    ensures e.Returned? && cfg.PolicyRelay() && !v6 ==> !e.won.direct
    ensures e.Cancelled? <==> f.last == WasDropped
    ensures e.Errored? ==> f.last == Failure
    ensures ReturnsPicked(f, e) && f.asked <= 1 && (e.Returned? && f.asked == 1 ==> e.won.conn.RelayStream?)
    ensures e.Errored? && f.picked.Some? && f.picked.value.conn.WebRtcStream? ==> f.asked == 1
    ensures f.asked == 1 ==> f.picked.Some? && f.picked.value.conn.WebRtcStream?
  {
    var v6 := v6;
    if v6 {
      var io := AwaitIo(f, pc);  // connecting the IPv6 socket
      if io.Dropped? { return Cancelled; }
      v6 := io.result.Ok?;
    }
    var adopted, dropped := AdoptOfferer(f, pc, answer, buffered);
    if dropped { return Cancelled; }
    f.webrtcGuard := adopted;
    var polled := AwaitRelayed(cfg, f, adopted, v6);
    if OutcomeOf(polled) != Success { return Unsuccessful(polled); }
    var w := polled.result.conn;
    e := SecureRelayed(cfg, f, pc, remote, w);
  }

  /** What arrives on the rendezvous socket. */
  datatype Message =
    | PunchHole(refused: bool, peerPort: bool, remote: Remote, answer: bool, isUdp: bool, v6Port: bool,
                relayServer: bool)
    | RelayResponse(remote: Remote, answer: bool, v6Port: bool)
    | IceCandidate(expected: bool)
    | OtherMessage

  predicate Decides(m: Message) { m.PunchHole? || m.RelayResponse? }

  /** Message `k` of attempt `a` is the answer to the request: the first message that decides anything in
      the first three attempts. */
  predicate IsAnswer(incoming: seq<seq<Message>>, a: nat, k: nat) {
    && a < 3 && a < |incoming| && k < |incoming[a]| && Decides(incoming[a][k])
    && (forall j | 0 <= j < k :: !Decides(incoming[a][j]))
    && Undecisive(incoming, a)
  }

  predicate Undecisive(incoming: seq<seq<Message>>, n: nat) {
    forall b, j | 0 <= b < n && b < |incoming| && 0 <= j < |incoming[b]| :: !Decides(incoming[b][j])
  }

  /** The answer `m` allows the connection: the handshake used its identity, and every transport was
      offered by it. */
  predicate Grants(m: Message, w: Won) {
    match m
    case PunchHole(refused, peerPort, remote, answer, isUdp, v6Port, relayServer) =>
      && !refused && peerPort && Secured(remote, w)
      && (match w.conn
          case TcpStream => true
          case KcpStream(v6) => if v6 then v6Port else isUdp
          case RelayStream => relayServer
          case WebRtcStream(_) => answer)
    case RelayResponse(remote, answer, v6Port) =>
      && Secured(remote, w)
      && (match w.conn
          case TcpStream => false
          case KcpStream(v6) => v6 && v6Port
          case RelayStream => true
          case WebRtcStream(_) => answer)
    case _ => false
  }

  /** What follows a message that decides. */
  method HandleAnswer(cfg: Setup, f: Frame, pc: PeerConnection?, m: Message, buffered: nat, may: Punches)
    returns (e: Exit)
    requires f.webrtcOfferer == pc && f.taken == null && f.webrtcGuard == null && f.Unrecorded() && Decides(m)
    requires pc != null ==> !pc.closed && (cfg.PolicyRelay() ==> pc.relayOnly)
    requires cfg.ForceRelay() ==> !may.udp && !may.v6
    modifies f, if pc == null then {} else {pc}
    ensures ReadyToDrop(f, pc, e) && f.sent == old(f.sent)
    ensures e.Returned? ==> Grants(m, e.won) && Finished(e.won) && KcpFits(e.won) && Permits(may, e.won.conn)
    ensures e.Returned? && cfg.ForceRelay() ==> e.won.conn.RelayStream? || e.won.conn.WebRtcStream?
    ensures e.Returned? && cfg.PolicyRelay() ==> !e.won.direct
  {
    match m {
      case PunchHole(refused, peerPort, remote, answer, isUdp, v6Port, relayServer) =>
        if refused { return Errored; }
        e := PunchedBody(cfg, f, pc, remote, answer, buffered, peerPort, relayServer,
                         Punches(may.tcp, may.udp && isUdp, may.v6 && v6Port));
      case RelayResponse(remote, answer, v6Port) =>
        e := RelayResponseBody(cfg, f, pc, remote, answer, buffered, may.v6 && v6Port);
    }
  }

  method StartInnerBody(cfg: Setup, f: Frame, pc: PeerConnection?, udp: bool, natPort: bool, v6: bool,
                        incoming: seq<seq<Message>>) returns (e: Exit)
    requires f.webrtcOfferer == pc && f.taken == null && f.webrtcGuard == null && f.Unrecorded() && f.sent == 0
    requires pc != null ==> !pc.closed && (cfg.PolicyRelay() ==> pc.relayOnly)
    requires cfg.ForceRelay() ==> !udp && !v6
    modifies f, if pc == null then {} else {pc}
    ensures ReadyToDrop(f, pc, e)
    ensures e.Returned? ==> RequestResult(e.won, pc, Punches(cfg.TcpPunchAllowed(), udp, v6))
    ensures e.Returned? ==> exists a: nat, k: nat :: IsAnswer(incoming, a, k) && Grants(incoming[a][k], e.won)
    ensures e.Returned? && cfg.ForceRelay() ==> e.won.conn.RelayStream? || e.won.conn.WebRtcStream?
    ensures e.Returned? && cfg.PolicyRelay() ==> !e.won.direct
    ensures f.sent <= 3
    ensures e.Errored? ==> f.last == Failure || f.sent == 3 || exists a: nat, k: nat :: IsAnswer(incoming, a, k)
  {
    var io := AwaitIo(f, pc);  // the TCP connection to the rendezvous server
    if io.Dropped? { return Cancelled; }
    if io.result.Err? { return Errored; }
    io := AwaitIo(f, pc);  // NAT type, then securing the socket or waiting for the UDP port
    if io.Dropped? { return Cancelled; }
    if io.result.Err? { return Errored; }
    var tcp := cfg.TcpPunchAllowed() && pc == null;
    var buffered, attempt := 0, 0;
    while attempt < 3
      invariant f.webrtcOfferer == pc && f.taken == null && f.webrtcGuard == null && f.Unrecorded()
      invariant pc != null ==> !pc.closed
      invariant attempt <= 3 && Undecisive(incoming, attempt) && f.sent == attempt
    {
      io := AwaitPunchRequest(f, pc);
      if io.Dropped? { return Cancelled; }
      if io.result.Err? { return Errored; }
      var messages, k := if attempt < |incoming| then incoming[attempt] else [], 0;
      while k <= |messages|
        invariant f.webrtcOfferer == pc && f.taken == null && f.webrtcGuard == null && f.Unrecorded()
        invariant pc != null ==> !pc.closed
        invariant f.sent == attempt + 1
        invariant k <= |messages| && forall j | 0 <= j < k :: !Decides(messages[j])
      {
        io := AwaitIo(f, pc);  // the next message, or the attempt's deadline
        if io.Dropped? { return Cancelled; }
        if k == |messages| { break; }
        if Decides(messages[k]) {
          assert IsAnswer(incoming, attempt, k);
          e := HandleAnswer(cfg, f, pc, messages[k], buffered, Punches(tcp, udp && natPort, v6));
          return e;
        }
        if messages[k].IceCandidate? && messages[k].expected && buffered < 64 {
          buffered := buffered + 1;
        }
        k := k + 1;
      }
      attempt := attempt + 1;
    }
    var unknown := Side(Malformed, None);
    e := PunchedBody(cfg, f, pc, Remote(false, unknown, unknown), false, buffered, false, false, Punches(tcp, udp, v6));
  }

  /** From the end of the punch attempts on; `peerPort` is false when no answer gave an address. */
  method PunchedBody(cfg: Setup, f: Frame, pc: PeerConnection?, remote: Remote, answer: bool, buffered: nat,
                     peerPort: bool, relayServer: bool, may: Punches) returns (e: Exit)
    requires f.webrtcOfferer == pc && f.taken == null && f.webrtcGuard == null && f.applied == None
    requires pc != null ==> !pc.closed && (cfg.PolicyRelay() ==> pc.relayOnly)
    requires cfg.ForceRelay() ==> !may.udp && !may.v6
    modifies f, if pc == null then {} else {pc}
    ensures ReadyToDrop(f, pc, e) && f.sent == old(f.sent)
    ensures e.Returned? ==> peerPort && Finished(e.won) && KcpFits(e.won)
    ensures e.Returned? ==> Secured(remote, e.won) && Permits(may, e.won.conn)
    ensures e.Returned? ==> (e.won.conn.WebRtcStream? ==> answer) && (e.won.conn.RelayStream? ==> relayServer)
    ensures e.Returned? && cfg.ForceRelay() ==> e.won.conn.RelayStream? || e.won.conn.WebRtcStream?
    ensures e.Returned? && cfg.PolicyRelay() ==> !e.won.direct
  {
    var io := AwaitIo(f, pc);  // connecting the UDP and IPv6 sockets to the peer
    if io.Dropped? { return Cancelled; }
    var adopted, dropped := AdoptOfferer(f, pc, answer, buffered);
    if dropped { return Cancelled; }
    if !peerPort {
      if adopted != null { adopted.CloseDetached(); }
      return Errored;
    }
    e := Connect(cfg, adopted, remote, relayServer, may);
  }

  /** `_start_inner`: on every exit the offerer is closed or backs the result, never both. */
  method StartInner(cfg: Setup, pc: PeerConnection?, udp: bool, natPort: bool, v6: bool,
                    incoming: seq<seq<Message>>) returns (e: Exit)
    requires pc != null ==> !pc.closed && (cfg.PolicyRelay() ==> pc.relayOnly)
    requires cfg.ForceRelay() ==> !udp && !v6
    modifies if pc == null then {} else {pc}
    ensures ClosedOrBacking(pc, e)
    ensures e.Returned? ==> RequestResult(e.won, pc, Punches(cfg.TcpPunchAllowed(), udp, v6))
    ensures e.Returned? ==> exists a: nat, k: nat :: IsAnswer(incoming, a, k) && Grants(incoming[a][k], e.won)
    ensures e.Returned? && cfg.ForceRelay() ==> e.won.conn.RelayStream? || e.won.conn.WebRtcStream?
    ensures e.Returned? && cfg.PolicyRelay() ==> !e.won.direct
  {
    var f := new Frame(pc, null);
    e := StartInnerBody(cfg, f, pc, udp, natPort, v6, incoming);
    f.Drop(pc);
  }

  // ----- what the outer race observes

  /** What the outer race can observe of its two requests: only the preferred one was given an offerer, and
      the fallback may only punch TCP. */
  predicate RequestCanObserve(schedule: seq<Event<Won>>, offerer: PeerConnection?, may: Punches) {
    && Legal(1, schedule)
    && forall i | 0 <= i < |schedule| && schedule[i].Completes? && schedule[i].outcome.Ok? ::
        if schedule[i].attempt == 0 then RequestResult(schedule[i].outcome.conn, offerer, may)
        else RequestResult(schedule[i].outcome.conn, null, Punches(true, false, false))
  }

  predicate ResultOfEither(w: Won, offerer: PeerConnection?, may: Punches) {
    RequestResult(w, offerer, may) || RequestResult(w, null, Punches(true, false, false))
  }

  /** A direct result of either request wins. */
  function OuterParams(): (p: Params<Won>) {
    Params(1, PREFER_WINDOW_MS, (w: Won) => w.direct)
  }

  /** Attempt 0 of the outer race finished and handed out a stream backed by `pc`. */
  predicate HandsOut(e: Event<Won>, pc: PeerConnection) {
    e.Completes? && e.attempt == 0 && e.outcome.Ok? && e.outcome.conn.conn == WebRtcStream(pc)
  }

  predicate HandedOut(h: seq<Event<Won>>, pc: PeerConnection) {
    exists i :: 0 <= i < |h| && HandsOut(h[i], pc)
  }

  /** The connection the outer race holds back is backed by `pc`. */
  predicate Parked(h: seq<Event<Won>>, pc: PeerConnection) {
    var first := FirstRelay(OuterParams(), h);
    first.Some? && HandsOut(h[first.value], pc)
  }

  predicate FallbackWon(h: seq<Event<Won>>) {
    h != [] && Last(h).Completes? && Last(h).attempt == 1 && Last(h).outcome.Ok?
  }

  /** The offerer was parked, and then the fallback connected or everything was cancelled. */
  predicate LeftOpen(e: Exit, h: seq<Event<Won>>, pc: PeerConnection) {
    Parked(h, pc) && (e.Cancelled? || (e.Returned? && FallbackWon(h) && Last(h).outcome == Ok(e.won)))
  }

  /** `h` is what one run of the outer race observed up to its exit `e`: it was dropped undecided, or it
      ended with the verdict. */
  ghost predicate Observed(e: Exit, h: seq<Event<Won>>, offerer: PeerConnection, may: Punches) {
    && RequestCanObserve(h, offerer, may) && Undecided(OuterParams(), h)
    && (e.Cancelled? <==> !Decided(OuterParams(), h))
    && (Decided(OuterParams(), h) ==>
          match Verdict(OuterParams(), h)
          case Connected(w) => e == Returned(w)
          case Failed(_, _) => e == Errored)
  }

  // ----- the offerer across the outer race

  /** After a decided outer race, the offerer was handed out (so no guard holds it any more) but does not
      back the result. */
  ghost predicate Abandoned(h: seq<Event<Won>>, pc: PeerConnection)
    requires Decided(OuterParams(), h)
  {
    var verdict := Verdict(OuterParams(), h);
    HandedOut(h, pc) && (verdict.Connected? ==> verdict.conn.conn != WebRtcStream(pc))
  }

  /** The ownership of one request does not carry over to the race of two: the offerer is abandoned
      exactly when the fallback connects after the preferred request was parked on a relayed pair. */
  lemma AbandonedIff(h: seq<Event<Won>>, pc: PeerConnection, may: Punches)
    requires RequestCanObserve(h, pc, may) && Undecided(OuterParams(), h) && Decided(OuterParams(), h)
    ensures Abandoned(h, pc) <==> Parked(h, pc) && FallbackWon(h)
  {
    if FallbackWon(h) {
      assert RequestResult(h[|h| - 1].outcome.conn, null, Punches(true, false, false));
    }
    AbandonedWhen(h, pc);
  }

  lemma AbandonedWhen(h: seq<Event<Won>>, pc: PeerConnection)
    requires Legal(1, h) && Undecided(OuterParams(), h) && Decided(OuterParams(), h)
    requires FallbackWon(h) ==> Last(h).outcome.conn.conn != WebRtcStream(pc)
    ensures Abandoned(h, pc) <==> Parked(h, pc) && FallbackWon(h)
  {
    if HandedOut(h, pc) {
      var i :| 0 <= i < |h| && HandsOut(h[i], pc);
      AfterHandOut(h, pc, i);
      AbandonedAfter(h, pc, i);
    }
  }

  lemma AbandonedAfter(h: seq<Event<Won>>, pc: PeerConnection, i: nat)
    requires i < |h| && HandsOut(h[i], pc) && Decided(OuterParams(), h)
    requires i == |h| - 1 || FirstRelay(OuterParams(), h) == Some(i)
    requires i < |h| - 1 && Last(h).Completes? ==> Last(h).attempt == 1
    requires FallbackWon(h) ==> Last(h).outcome.conn.conn != WebRtcStream(pc)
    ensures Abandoned(h, pc) <==> Parked(h, pc) && FallbackWon(h)
  {
    assert HandedOut(h, pc);
    if i == |h| - 1 {
      assert Verdict(OuterParams(), h) == Connected(h[i].outcome.conn);
    }
  }

  /** Such runs exist: the preferred request ends on a TURN pair, and the TCP punch lands in time. */
  lemma OffererIsAbandoned(pc: PeerConnection, may: Punches) returns (h: seq<Event<Won>>)
    ensures RequestCanObserve(h, pc, may) && Undecided(OuterParams(), h)
    ensures Decided(OuterParams(), h) && Abandoned(h, pc)
  {
    var parked := Completes(0, Ok(Won(WebRtcStream(pc), false, WebRTC, false, Some(true), Keyed)), 0);
    var landed := Completes(1, Ok(Won(TcpStream, false, TCP, true, None, Keyed)), 1);
    h := [parked, landed];
    assert 1 in OthersPending(1, Init(Init(h)));
    assert h[..0] == [] && h[..1] == [parked] == Init(h) && Init(Init(h)) == [];
    assert HandsOut(h[0], pc);
  }

  /** While the race goes on, an offerer that was handed out is the parked one. */
  lemma ParkedIff(h: seq<Event<Won>>, pc: PeerConnection)
    requires Legal(1, h) && Undecided(OuterParams(), h) && !Decided(OuterParams(), h)
    ensures HandedOut(h, pc) <==> Parked(h, pc)
  {
    if i :| 0 <= i < |h| && HandsOut(h[i], pc) {
      AfterHandOut(h, pc, i);
      if i == |h| - 1 {
        LastIsParked(h, pc);
      }
    }
  }

  /** However the outer race ends, an offerer that was handed out backs the result or is left open. */
  lemma LeftOpenIff(e: Exit, h: seq<Event<Won>>, pc: PeerConnection, may: Punches)
    requires Observed(e, h, pc, may)
    ensures e.Returned? ==> ResultOfEither(e.won, pc, may)
    ensures Backs(e, pc) ==> HandedOut(h, pc)
    ensures HandedOut(h, pc) && !Backs(e, pc) <==> LeftOpen(e, h, pc)
  {
    match e {
      case Cancelled => ParkedIff(h, pc);
      case Errored => FailsIffEverythingFailed(OuterParams(), h);
      case Returned(_) =>
        var i := VerdictWasObserved(OuterParams(), h);
        assert ResultOfEither(h[i].outcome.conn, pc, may);
        AbandonedIff(h, pc, may);
    }
  }

  /** While the fallback is still pending, nothing completed before the preferred request. */
  lemma NothingBefore(g: seq<Event<Won>>, k: nat)
    requires Legal(1, g) && k < |g| - 1
    requires Last(g).Completes? && Last(g).attempt == 0 && 1 in OthersPending(1, g)
    ensures !g[k].Completes?
  {
    PendingUntil(1, g, k + 1, |g| - 1);
    PendingBefore(1, g, k + 1);
    assert IsPending(1, Init(g), 1);
    PrefixStep(g, k);
    LegalPrefix(1, g, k + 1);
    PendingWithin(1, g[..k]);
    assert IsPending(1, g[..k + 1], 0) && IsPending(1, g[..k + 1], 1);
  }

  lemma LastIsParked(g: seq<Event<Won>>, pc: PeerConnection)
    requires g != [] && Legal(1, g) && !Decided(OuterParams(), g) && HandsOut(Last(g), pc)
    ensures FirstRelay(OuterParams(), g) == Some(|g| - 1) && OthersPending(1, g) == {1}
  {
    PendingWithin(1, g);
    assert OthersPending(1, g) == {1};
    forall k | 0 <= k < |g| - 1 ensures !g[k].Completes? {
      NothingBefore(g, k);
    }
    assert forall k | 0 <= k < |g| - 1 :: Init(g)[k] == g[k];
  }

  /** From then on only the fallback can complete. */
  lemma OnlyFallbackIsLeft(h: seq<Event<Won>>, pc: PeerConnection, i: nat)
    requires Legal(1, h) && i < |h| - 1 && HandsOut(h[i], pc) && !Decided(OuterParams(), h[..i + 1])
    ensures FirstRelay(OuterParams(), h[..i + 1]) == Some(i)
    ensures Last(h).Completes? ==> Last(h).attempt == 1
  {
    PrefixStep(h, i);
    LegalPrefix(1, h, i + 1);
    LastIsParked(h[..i + 1], pc);
    PendingUntil(1, h, i + 1, |h| - 1);
  }

  /** The preferred request's stream is the one that is parked, unless it ended the race. */
  lemma AfterHandOut(h: seq<Event<Won>>, pc: PeerConnection, i: nat)
    requires Legal(1, h) && Undecided(OuterParams(), h)
    requires i < |h| && HandsOut(h[i], pc)
    ensures i == |h| - 1 || FirstRelay(OuterParams(), h) == Some(i)
    ensures i < |h| - 1 && Last(h).Completes? ==> Last(h).attempt == 1
  {
    if i < |h| - 1 {
      assert !Decided(OuterParams(), h[..i + 1]);
      OnlyFallbackIsLeft(h, pc, i);
      WindowNeverExtended(OuterParams(), h, i + 1);
    }
  }

  // ----- the outer race and `_start`

  /** The outer race.  The preferred request closes the offerer, also when it is dropped, unless it has
      handed it out; from then on no guard holds it. */
  method OuterRace(offerer: PeerConnection, may: Punches) returns (e: Exit, ghost h: seq<Event<Won>>)
    requires !offerer.closed
    modifies offerer
    ensures Observed(e, h, offerer, may)
    ensures e.Returned? ==> ResultOfEither(e.won, offerer, may)
    ensures Backs(e, offerer) ==> !offerer.closed
    ensures !offerer.closed && !Backs(e, offerer) <==> LeftOpen(e, h, offerer)
  {
    assert RequestCanObserve([], offerer, may);
    var schedule :| RequestCanObserve(schedule, offerer, may);
    assert RequestCanObserve(schedule, offerer, may);
    var verdict, used, _ := Race(OuterParams(), schedule);
    if !HandedOut(schedule[..used], offerer) {
      offerer.CloseDetached();
    }
    h := schedule[..used];
    LegalPrefix(1, schedule, used);
    assert RequestCanObserve(h, offerer, may);
    match verdict {
      case None =>
        e := Cancelled;
        assert h == schedule;
      case Some(Failed(_, _)) => e := Errored;
      case Some(Connected(w)) => e := Returned(w);
    }
    LeftOpenIff(e, h, offerer, may);
  }

  datatype Peer = IpAddress | DomainPort | PeerId

  /** Nothing to race: a relay is forced, or the fallback request would have no punch to make. */
  predicate SingleRequest(cfg: Setup, udp: bool, offerer: bool) {
    cfg.ForceRelay() || (!udp && !offerer) || !cfg.TcpPunchAllowed()
  }

  /** `_start`, after the incoming-only test: what is returned for a peer id, who owns the offerer, and that
      no transport is used that the settings rule out. */
  method Start(cfg: Setup, peer: Peer, incoming: seq<seq<Message>>)
    returns (e: Exit, ghost offerer: PeerConnection?, ghost raced: Option<seq<Event<Won>>>)
    ensures offerer != null ==> fresh(offerer) && peer.PeerId?
    ensures offerer != null ==> cfg.webrtc && !cfg.proxy && (cfg.peerRelay ==> cfg.turn)
    ensures offerer != null ==> offerer.relayOnly == cfg.peerRelay
    ensures raced.Some? <==> offerer != null && !cfg.peerRelay && !cfg.ws && cfg.tcpPunch
    ensures raced.None? && offerer != null ==> ClosedOrBacking(offerer, e)
    ensures raced.Some? ==>
              && (exists may :: Observed(e, raced.value, offerer, may))
              && (Backs(e, offerer) ==> !offerer.closed)
              && (!offerer.closed && !Backs(e, offerer) <==> LeftOpen(e, raced.value, offerer))
    ensures OnlyBacks(e, offerer)
    ensures e.Returned? ==> Fits(e.won) && KcpFits(e.won)
    ensures e.Returned? && peer.PeerId? ==> SecurityFits(e.won)
    ensures e.Returned? ==>
              var w := e.won;
              match w.conn
              case TcpStream => w.typ == TCP && !w.kcp
              case KcpStream(v6) => w.typ == (if v6 then IPv6 else UDP) && w.kcp
              case RelayStream => (w.typ == Relay || w.typ == WebSocket) && !w.kcp && !w.direct
              case WebRtcStream(_) => w.typ == WebRTC && !w.kcp && (w.direct ==> w.relayedPair == Some(false))
    ensures e.Returned? && peer.PeerId? ==>
              match e.won.conn
              case TcpStream => cfg.tcpPunch || !(cfg.udpPunch || cfg.ipv6Punch || cfg.webrtc)
              case KcpStream(v6) => if v6 then cfg.ipv6Punch else cfg.udpPunch
              case RelayStream => true
              case WebRtcStream(_) => cfg.webrtc && !cfg.proxy
    ensures e.Returned? && peer.PeerId? && (cfg.peerRelay || cfg.proxy || cfg.ws) ==>
              e.won.conn.RelayStream? || e.won.conn.WebRtcStream?
    ensures e.Returned? && peer.PeerId? && (cfg.peerRelay || cfg.proxy) ==> !e.won.direct
    ensures !peer.PeerId? && e.Returned? ==> e.won.conn == TcpStream && e.won.direct
  {
    var none: PeerConnection? := null;
    offerer, raced := null, None;
    var f := new Frame(none, none);
    if !peer.PeerId? {
      var io := AwaitIo(f, none);
      e := if io.Dropped? then Cancelled
           else if io.result.Err? then Errored
           else Returned(Won(TcpStream, false, TCP, true, None, Raw));
      return;
    }
    var udp, v6 := false, false;
    if cfg.udpPunch && !cfg.ForceRelay() {
      var io := AwaitIo(f, none);
      if io.Dropped? { e := Cancelled; return; }
      udp := io.result.Ok?;
    }
    if cfg.ipv6Punch && !cfg.ForceRelay() {
      var io := AwaitIo(f, none);
      if io.Dropped? { e := Cancelled; return; }
      v6 := io.result.Ok?;
    }
    var created: PeerConnection? := null;
    if cfg.ShouldCreateOfferer() {
      var io := AwaitIo(f, none);
      if io.Dropped? { e := Cancelled; return; }
      if io.result.Ok? {
        created := new PeerConnection(cfg.PolicyRelay());
        offerer := created;
      }
    }
    var natPort: bool := *;
    if SingleRequest(cfg, udp, created != null) {
      e := StartInner(cfg, created, udp, natPort, v6, incoming);
      return;
    }
    if created != null {
      ghost var h;
      e, h := OuterRace(created, Punches(true, udp, v6));
      raced := Some(h);
      return;
    }
    var may := Punches(true, udp, v6);
    assert RequestCanObserve([], none, may);
    var schedule: seq<Event<Won>> :| RequestCanObserve(schedule, none, may);
    assert RequestCanObserve(schedule, none, may);
    var first, used := SelectOk(1, schedule);
    if first.None? { e := Cancelled; return; }
    if first.value.Err? { e := Errored; return; }
    assert schedule[used - 1].outcome == first.value;
    e := Returned(first.value.conn);
  }
}
