/**
  Connection set-up: `_start_inner` and `connect` as a state machine.

  A state is a place in the code with the locals that matter there. A move either runs on to the next
  place, with the environment's answer, or drops the future at an await. The proofs follow three
  things through every run: who owns the WebRTC peer connection, which transport is returned, and
  what happened to the rendezvous socket before a TCP punch reuses its address.
*/
module ConnectionSetup {
  import opened Prelude
  import opened TransportRace

  datatype Transport = Tcp | Udp | Ipv6 | WebRtc | Relay | WebSocket

  datatype Conn = Conn(typ: Transport, direct: bool)

  /** What one call of `_start_inner` is given and reads from the interface. */
  datatype Request = Request(
    forceRelay: bool, useWs: bool, tcpPunchAllowed: bool, legacySecure: bool,
    hasUdp: bool, hasV6: bool, hasOfferer: bool)

  /** Both ways to a connection have the same shape: adopt the offerer, race, secure, return. */
  datatype Branch = ViaRelay | ViaPunch

  datatype Ask =
    | Rendezvous | NatType | KeyExchange | Reconnect | LegacySecure | UdpNatWait | Compose
    | SendRequest | AwaitReply
    | RelayV6         // connecting the v6 socket of a relay response
    | BindSockets     // connecting the punch sockets of a punch response
    | TakeAnswer(branch: Branch)

  datatype Adopt = DropOfferer | CheckAddress | Rearm

  datatype Try = NatTypeAgain | Race | RequestRelay | Fallback | FallbackSecure

  datatype Hold = Secure | QueryRelayed | Return

  /** Where the code is, grouped by what can own the peer connection there. */
  datatype Place =
    | Asking(ask: Ask)
    | SettingUp(branch: Branch)                // the awaited set-up on the guard's borrowed stream
    | TakingOver(branch: Branch)               // `guard.into_inner()`
    | Adopted(branch: Branch, adopt: Adopt)
    | Trying(branch: Branch, try: Try)
    | Deciding                                 // the relay override of `connect`
    | Holding(branch: Branch, hold: Hold)
    | Ended

  /** The awaits: the only places where the future can be dropped. */
  predicate Suspends(p: Place) {
    match p
    case Asking(ask) => !ask.Compose? && !ask.TakeAnswer?
    case SettingUp(_) => true
    case Trying(_, _) => true
    case Holding(_, hold) => !hold.Return?
    case TakingOver(_) | Adopted(_, _) | Deciding | Ended => false
  }

  // ---------------------------------------------------------------------------------------------
  // The peer connection

  /**
    `offerer`, `setup` and `winner` say whether `webrtc_offerer`, the local `guard` and
    `webrtc_guard` hold an armed guard; `bare` is a stream taken out of its guard into
    `webrtc_for_connect`. `closes` counts `close_detached` calls, `handedOut` successful returns.
  */
  datatype Peer = Peer(offerer: bool, setup: bool, bare: bool, winner: bool, closes: nat, handedOut: nat) {

    /** Exactly one owner: a guard, a bare local, the closer, or the caller. */
    function Owners(): nat {
      (if offerer then 1 else 0) + (if setup then 1 else 0) + (if bare then 1 else 0) + (if winner then 1 else 0)
      + closes + handedOut
    }

    /** Leaving the scope: every armed guard closes, a bare stream is dropped without. */
    function DropScope(): Peer {
      var armed := (if offerer then 1 else 0) + (if setup then 1 else 0) + (if winner then 1 else 0);
      Peer(false, false, false, false, closes + armed, handedOut)
    }

    function DropOfferer(): Peer {
      this.(offerer := false, closes := closes + if offerer then 1 else 0)
    }

    /** `webrtc_offerer.take()` into the local guard. */
    function TakeOfferer(): Peer {
      this.(offerer := false, setup := offerer)
    }

    function DropSetup(): Peer {
      this.(setup := false, closes := closes + if setup then 1 else 0)
    }

    /** `guard.into_inner()`: nothing is armed until the stream is wrapped again. */
    function IntoInner(): Peer {
      this.(setup := false, bare := setup)
    }

    function CloseBare(): Peer {
      this.(bare := false, closes := closes + if bare then 1 else 0)
    }

    /** `OffererGuard::new` around the adopted stream. */
    function Rearm(): Peer {
      this.(bare := false, winner := bare)
    }

    function DropWinner(): Peer {
      this.(winner := false, closes := closes + if winner then 1 else 0)
    }

    /** `guard.into_inner()` on the kept transport, then leaving the scope. */
    function HandOut(): Peer {
      (if winner then this.(winner := false, handedOut := handedOut + 1) else this).DropScope()
    }
  }

  // ---------------------------------------------------------------------------------------------
  // States and moves

  datatype Socket = Open | Bridged | Released

  /** The rendezvous socket and the direct transports this round carries. */
  datatype Net = Net(socket: Socket, allowTcp: bool, udp: bool, v6: bool)

  datatype Outcome = Running | Failed | Cancelled | Returned(conn: Conn)

  datatype State = State(
    place: Place, attempt: nat, peer: Peer, net: Net,
    answered: bool, relayServer: bool, hasPeerAddress: bool,
    conn: Option<Conn>, outcome: Outcome)

  datatype Reply =
    | Silence
    | Noise
    | Refused
    | Punched(answer: bool, relayServer: bool, hasPort: bool, udpOk: bool, v6Ok: bool)
    | Relayed(answer: bool)

  /** The environment's answer to an await: success, a rendezvous reply, the race's winner. */
  datatype Answer = Answer(ok: bool, reply: Reply, won: Conn, relayed: bool)

  datatype Move = Go(answer: Answer) | Drop

  function Init(q: Request): State {
    State(Asking(Rendezvous), 1, Peer(q.hasOfferer, false, false, false, 0, 0), Net(Open, false, q.hasUdp, q.hasV6),
          false, false, false, None, Running)
  }

  function Exit(s: State, outcome: Outcome): State {
    s.(place := Ended, peer := s.peer.DropScope(), outcome := outcome)
  }

  function To(s: State, p: Place): State {
    s.(place := p)
  }

  function OrFail(ok: bool, s: State): State {
    if ok then s else Exit(s, Failed)
  }

  /** The label of a relayed connection: `connect` always says relay, the relay branch looks at ws. */
  function RelayType(q: Request, branch: Branch): Transport {
    if branch.ViaRelay? && q.useWs then WebSocket else Relay
  }

  predicate IsWebRtc(c: Option<Conn>) {
    c.Some? && c.value.typ == WebRtc
  }

  /** Which connections the race of a branch can be won by. */
  predicate CanWin(q: Request, s: State, branch: Branch, c: Conn) {
    match c.typ
    case Tcp => branch.ViaPunch? && s.net.allowTcp && c.direct
    case Udp => branch.ViaPunch? && s.net.udp && c.direct
    case Ipv6 => s.net.v6 && c.direct
    case WebRtc => s.peer.winner
    case Relay | WebSocket => branch.ViaRelay? && c.typ == RelayType(q, branch) && !c.direct
  }

  predicate Enabled(q: Request, s: State, m: Move) {
    match m
    case Drop => Suspends(s.place)
    case Go(a) => s.place.Trying? && s.place.try.Race? && a.ok ==> CanWin(q, s, s.place.branch, a.won)
  }

  function OnReply(s: State, reply: Reply): State {
    match reply
    case Silence =>
      if s.attempt < 3 then To(s, Asking(SendRequest)).(attempt := s.attempt + 1)
      else To(s, Asking(TakeAnswer(ViaPunch)))
    case Noise => s
    case Refused => Exit(s, Failed)
    case Punched(answer, relayServer, hasPort, udpOk, v6Ok) =>
      To(s, Asking(BindSockets)).(answered := answer, relayServer := relayServer, hasPeerAddress := hasPort,
                                  net := s.net.(udp := s.net.udp && udpOk, v6 := s.net.v6 && v6Ok))
    case Relayed(answer) => To(s, Asking(RelayV6)).(answered := answer)
  }

  /** Without an adopted offerer the punch branch drops the socket here; the relay branch keeps it. */
  function Unadopted(s: State, branch: Branch): State {
    To(s, Adopted(branch, DropOfferer)).(net := if branch.ViaPunch? then s.net.(socket := Released) else s.net)
  }

  function NextAsking(q: Request, s: State, ask: Ask, a: Answer): State {
    match ask
    case Rendezvous => OrFail(a.ok, To(s, Asking(NatType)))
    case NatType =>
      To(s, Asking(if s.peer.offerer then KeyExchange else if q.legacySecure then LegacySecure else UdpNatWait))
    case KeyExchange =>
      if a.ok then To(s, Asking(UdpNatWait)) else To(s, Asking(Reconnect)).(peer := s.peer.DropOfferer())
    case Reconnect => OrFail(a.ok, To(s, Asking(if q.legacySecure then LegacySecure else UdpNatWait)))
    case LegacySecure => OrFail(a.ok, To(s, Asking(UdpNatWait)))
    case UdpNatWait => To(s, Asking(Compose))
    case Compose =>
      To(s, Asking(SendRequest)).(net := s.net.(allowTcp := q.tcpPunchAllowed && !s.peer.offerer))
    case SendRequest => OrFail(a.ok, To(s, Asking(AwaitReply)))
    case AwaitReply => OnReply(s, a.reply)
    case RelayV6 => To(s, Asking(TakeAnswer(ViaRelay))).(net := s.net.(v6 := s.net.v6 && a.ok))
    case BindSockets => To(s, Asking(TakeAnswer(ViaPunch)))
    case TakeAnswer(branch) =>
      if s.answered && s.peer.offerer then To(s, SettingUp(branch)).(peer := s.peer.TakeOfferer())
      else Unadopted(s, branch)
  }

  function NextSettingUp(s: State, branch: Branch, a: Answer): State {
    if a.ok then To(s, TakingOver(branch)) else Unadopted(s.(peer := s.peer.DropSetup()), branch)
  }

  /** The synchronous hand-off: the stream leaves its guard and the bridge takes the socket. */
  function NextTakingOver(s: State, branch: Branch): State {
    To(s, Adopted(branch, DropOfferer)).(peer := s.peer.IntoInner(), net := s.net.(socket := Bridged))
  }

  function NextAdopted(s: State, branch: Branch, adopt: Adopt): State {
    match adopt
    case DropOfferer =>
      if branch.ViaPunch? then To(s, Adopted(ViaPunch, CheckAddress)).(peer := s.peer.DropOfferer())
      else To(s, Adopted(ViaRelay, Rearm)).(peer := s.peer.DropOfferer())
    case CheckAddress =>
      if s.hasPeerAddress then To(s, Adopted(branch, Rearm)) else Exit(s.(peer := s.peer.CloseBare()), Failed)
    case Rearm =>
      if branch.ViaPunch? then To(s, Trying(ViaPunch, NatTypeAgain)).(peer := s.peer.Rearm())
      else To(s, Trying(ViaRelay, Race)).(peer := s.peer.Rearm())
  }

  function NextTrying(q: Request, s: State, branch: Branch, try: Try, a: Answer): State {
    match try
    case NatTypeAgain => To(s, Trying(branch, Race))
    case Race =>
      if branch.ViaRelay? then if a.ok then To(s, Holding(branch, Secure)).(conn := Some(a.won)) else Exit(s, Failed)
      else To(s, Deciding).(conn := if a.ok then Some(a.won) else None)
    case RequestRelay => OrFail(a.ok, To(s, Holding(branch, Secure)).(conn := Some(Conn(Relay, false))))
    case Fallback => OrFail(a.ok, To(s, Trying(branch, FallbackSecure)))
    case FallbackSecure =>
      OrFail(a.ok, To(s, Holding(branch, Return)).(conn := Some(Conn(RelayType(q, branch), false))))
  }

  /** A forced relay replaces everything but WebRTC; so does a race nobody won. */
  function NextDeciding(q: Request, s: State): State {
    if s.conn.None? || (q.forceRelay && !IsWebRtc(s.conn))
    then OrFail(s.relayServer, To(s, Trying(ViaPunch, RequestRelay)))
    else To(s, Holding(ViaPunch, Secure))
  }

  function NextHolding(s: State, branch: Branch, hold: Hold, a: Answer): State {
    match hold
    case Secure =>
      if a.ok then To(s, Holding(branch, if branch.ViaPunch? && IsWebRtc(s.conn) then QueryRelayed else Return))
      else if IsWebRtc(s.conn) && (branch.ViaRelay? || s.relayServer)
      then To(s, Trying(branch, Fallback)).(peer := s.peer.DropWinner())
      else Exit(s, Failed)
    case QueryRelayed =>
      var conn := if s.conn.Some? && a.relayed then Some(s.conn.value.(direct := false)) else s.conn;
      To(s, Holding(branch, Return)).(conn := conn)
    case Return =>
      match s.conn {
        case None => s
        case Some(c) =>
          if c.typ == WebRtc then s.(place := Ended, peer := s.peer.HandOut(), outcome := Returned(c))
          else Exit(s, Returned(c))
      }
  }

  function Next(q: Request, s: State, a: Answer): State {
    match s.place
    case Asking(ask) => NextAsking(q, s, ask, a)
    case SettingUp(branch) => NextSettingUp(s, branch, a)
    case TakingOver(branch) => NextTakingOver(s, branch)
    case Adopted(branch, adopt) => NextAdopted(s, branch, adopt)
    case Trying(branch, try) => NextTrying(q, s, branch, try, a)
    case Deciding => NextDeciding(q, s)
    case Holding(branch, hold) => NextHolding(s, branch, hold, a)
    case Ended => s
  }

  function Step(q: Request, s: State, m: Move): State {
    match m
    case Drop => Exit(s, Cancelled)
    case Go(a) => Next(q, s, a)
  }

  /** The machine can make move `m` in `s`, and it leads to `s'`. */
  predicate Follows(q: Request, s: State, m: Move, s': State) {
    Enabled(q, s, m) && s' == Step(q, s, m)
  }

  /** A run of one call, from entering it to any point. */
  predicate IsRun(q: Request, states: seq<State>, moves: seq<Move>) {
    && |states| == |moves| + 1
    && states[0] == Init(q)
    && forall i | 0 <= i < |moves| :: Follows(q, states[i], moves[i], states[i + 1])
  }

  // ---------------------------------------------------------------------------------------------
  // Ownership of the peer connection

  /** Which guards can be armed at a place, and that a WebRTC winner is guarded until it is returned. */
  predicate Guarded(place: Place, p: Peer, conn: Option<Conn>) {
    match place
    case Asking(_) => !p.setup && !p.bare && !p.winner
    case SettingUp(_) => p.setup && !p.bare && !p.winner
    case TakingOver(_) => p.setup && !p.bare && !p.winner
    case Adopted(_, _) => !p.setup && !p.winner
    case Trying(_, _) => !p.setup && !p.bare
    case Deciding => !p.setup && !p.bare && (IsWebRtc(conn) ==> p.winner)
    case Holding(_, _) => !p.setup && !p.bare && conn.Some? && (IsWebRtc(conn) ==> p.winner)
    case Ended => !p.offerer && !p.setup && !p.bare && !p.winner
  }

  predicate Owned(q: Request, s: State) {
    && s.peer.Owners() == (if q.hasOfferer then 1 else 0)
    && Guarded(s.place, s.peer, s.conn)
    && (s.place.Ended? <==> !s.outcome.Running?)
    && (s.peer.handedOut > 0 <==> s.outcome.Returned? && s.outcome.conn.typ == WebRtc)
  }

  // ---------------------------------------------------------------------------------------------
  // The transport that is returned

  predicate IsPunch(t: Transport) {
    t == Tcp || t == Udp || t == Ipv6
  }

  predicate IsRelay(t: Transport) {
    t == Relay || t == WebSocket
  }

  /** A relayed transport is never reported as direct, and a forced relay never returns a punch. */
  predicate Acceptable(q: Request, c: Conn) {
    && (IsRelay(c.typ) ==> !c.direct)
    && (q.forceRelay ==> !IsPunch(c.typ))
  }

  predicate Routed(q: Request, s: State) {
    && (q.forceRelay ==> !s.net.udp && !s.net.v6)
    && (s.conn.Some? && IsRelay(s.conn.value.typ) ==> !s.conn.value.direct)
    && (s.place.Holding? && s.conn.Some? ==> Acceptable(q, s.conn.value))
    && (s.outcome.Returned? ==> Acceptable(q, s.outcome.conn))
  }

  // ---------------------------------------------------------------------------------------------
  // The rendezvous socket

  /** A round that may punch over TCP carries no peer connection, so no bridge can hold its socket. */
  predicate SocketSafe(s: State) {
    && (s.net.allowTcp ==>
          s.net.socket != Bridged && !s.peer.offerer && !s.peer.setup && !s.peer.bare && !s.peer.winner)
    && (s.place.Asking? ==> s.net.socket == Open)
    && (s.place.Adopted? && s.place.branch.ViaPunch? ==> s.net.socket != Open)
    && (s.place.Trying? && s.place.branch.ViaPunch? && (s.place.try.NatTypeAgain? || s.place.try.Race?) ==>
          s.net.socket != Open)
  }

  predicate Good(q: Request, s: State) {
    Owned(q, s) && Routed(q, s) && SocketSafe(s)
  }

  lemma OwnedReply(q: Request, s: State, reply: Reply)
    requires Owned(q, s) && s.place == Asking(AwaitReply)
    ensures Owned(q, OnReply(s, reply))
  {}

  lemma OwnedAsking(q: Request, s: State, ask: Ask, a: Answer)
    requires Owned(q, s) && s.place == Asking(ask)
    ensures Owned(q, NextAsking(q, s, ask, a))
  {
    if ask.AwaitReply? {
      OwnedReply(q, s, a.reply);
    }
  }

  lemma RoutedAsking(q: Request, s: State, ask: Ask, a: Answer)
    requires Routed(q, s) && s.place == Asking(ask) && s.outcome.Running?
    ensures Routed(q, NextAsking(q, s, ask, a))
  {}

  lemma SocketReply(s: State, reply: Reply)
    requires SocketSafe(s) && s.place == Asking(AwaitReply)
    ensures SocketSafe(OnReply(s, reply))
  {}

  lemma SocketAsking(q: Request, s: State, ask: Ask, a: Answer)
    requires SocketSafe(s) && Guarded(s.place, s.peer, s.conn) && s.place == Asking(ask)
    ensures SocketSafe(NextAsking(q, s, ask, a))
  {
    if ask.AwaitReply? {
      SocketReply(s, a.reply);
    }
  }

  lemma OwnedAdopting(q: Request, s: State, a: Answer)
    requires Owned(q, s) && (s.place.SettingUp? || s.place.TakingOver? || s.place.Adopted?)
    ensures Owned(q, Next(q, s, a))
  {}

  lemma RoutedAdopting(q: Request, s: State, a: Answer)
    requires Routed(q, s) && s.outcome.Running? && (s.place.SettingUp? || s.place.TakingOver? || s.place.Adopted?)
    ensures Routed(q, Next(q, s, a))
  {}

  lemma SocketAdopting(q: Request, s: State, a: Answer)
    requires SocketSafe(s) && Guarded(s.place, s.peer, s.conn)
    requires s.place.SettingUp? || s.place.TakingOver? || s.place.Adopted?
    ensures SocketSafe(Next(q, s, a))
  {}

  lemma OwnedTrying(q: Request, s: State, branch: Branch, try: Try, a: Answer)
    requires Owned(q, s) && s.place == Trying(branch, try) && Enabled(q, s, Go(a))
    ensures Owned(q, NextTrying(q, s, branch, try, a))
  {}

  lemma RoutedTrying(q: Request, s: State, branch: Branch, try: Try, a: Answer)
    requires Routed(q, s) && s.outcome.Running? && s.place == Trying(branch, try) && Enabled(q, s, Go(a))
    ensures Routed(q, NextTrying(q, s, branch, try, a))
  {}

  lemma SocketTrying(q: Request, s: State, branch: Branch, try: Try, a: Answer)
    requires SocketSafe(s) && s.place == Trying(branch, try)
    ensures SocketSafe(NextTrying(q, s, branch, try, a))
  {}

  lemma GoodDeciding(q: Request, s: State)
    requires Good(q, s) && s.place.Deciding?
    ensures Good(q, NextDeciding(q, s))
  {}

  lemma OwnedHolding(q: Request, s: State, branch: Branch, hold: Hold, a: Answer)
    requires Owned(q, s) && s.place == Holding(branch, hold)
    ensures Owned(q, NextHolding(s, branch, hold, a))
  {}

  lemma RoutedHolding(q: Request, s: State, branch: Branch, hold: Hold, a: Answer)
    requires Routed(q, s) && s.outcome.Running? && s.place == Holding(branch, hold) && s.conn.Some?
    ensures Routed(q, NextHolding(s, branch, hold, a))
  {}

  lemma SocketHolding(q: Request, s: State, branch: Branch, hold: Hold, a: Answer)
    requires SocketSafe(s) && s.place == Holding(branch, hold)
    ensures SocketSafe(NextHolding(s, branch, hold, a))
  {}

  lemma GoodDrop(q: Request, s: State)
    requires Good(q, s) && Suspends(s.place)
    ensures Good(q, Exit(s, Cancelled))
  {}

  lemma GoodNext(q: Request, s: State, a: Answer)
    requires Good(q, s) && Enabled(q, s, Go(a))
    ensures Good(q, Next(q, s, a))
  {
    match s.place
    case Asking(ask) =>
      OwnedAsking(q, s, ask, a);
      RoutedAsking(q, s, ask, a);
      SocketAsking(q, s, ask, a);
    case SettingUp(_) | TakingOver(_) | Adopted(_, _) =>
      OwnedAdopting(q, s, a);
      RoutedAdopting(q, s, a);
      SocketAdopting(q, s, a);
    case Trying(branch, try) =>
      OwnedTrying(q, s, branch, try, a);
      RoutedTrying(q, s, branch, try, a);
      SocketTrying(q, s, branch, try, a);
    case Deciding => GoodDeciding(q, s);
    case Holding(branch, hold) =>
      OwnedHolding(q, s, branch, hold, a);
      RoutedHolding(q, s, branch, hold, a);
      SocketHolding(q, s, branch, hold, a);
    case Ended =>
  }

  /** What `_start` guarantees of every request it makes: a forced relay binds no punch socket. */
  predicate WellFormed(q: Request) {
    q.forceRelay ==> !q.hasUdp && !q.hasV6
  }

  lemma GoodStep(q: Request, s: State, m: Move, s': State)
    requires Good(q, s) && Follows(q, s, m, s')
    ensures Good(q, s')
  {
    match m
    case Drop => GoodDrop(q, s);
    case Go(a) => GoodNext(q, s, a);
  }

  lemma {:induction false} GoodRun(q: Request, states: seq<State>, moves: seq<Move>, n: nat)
    requires WellFormed(q) && IsRun(q, states, moves) && n < |states|
    ensures Good(q, states[n])
  {
    if n > 0 {
      GoodRun(q, states, moves, n - 1);
      GoodStep(q, states[n - 1], moves[n - 1], states[n]);
    }
  }

  /** Closed exactly once, or handed to the caller. */
  predicate OneFate(s: State) {
    if s.outcome.Returned? && s.outcome.conn.typ == WebRtc
    then s.peer.closes == 0 && s.peer.handedOut == 1
    else s.peer.closes == 1 && s.peer.handedOut == 0
  }

  lemma GoodEndsInOneFate(q: Request, s: State)
    requires Good(q, s) && q.hasOfferer && s.place.Ended?
    ensures OneFate(s)
  {}

  /** On every outcome, cancellation included, the peer connection is closed exactly once or it is
      the connection returned, never both and never neither. */
  lemma PeerConnectionHasOneFate(q: Request, states: seq<State>, moves: seq<Move>, n: nat)
    requires WellFormed(q) && q.hasOfferer && IsRun(q, states, moves) && n < |states|
    requires states[n].place.Ended?
    ensures OneFate(states[n])
  {
    GoodRun(q, states, moves, n);
    GoodEndsInOneFate(q, states[n]);
  }

  /** In an armed guard, closed already, or not there at all. */
  predicate SafeToDrop(q: Request, p: Peer) {
    !p.bare && p.Owners() - p.handedOut == (if q.hasOfferer then 1 else 0)
  }

  lemma GoodIsSafeToDrop(q: Request, s: State)
    requires Good(q, s) && Suspends(s.place)
    ensures SafeToDrop(q, s.peer)
  {}

  /** Neither hand-off contains a suspension point: wherever the future can be dropped, no stream is
      outside its guard. */
  lemma NeverBareAtAnAwait(q: Request, states: seq<State>, moves: seq<Move>, n: nat)
    requires WellFormed(q) && IsRun(q, states, moves) && n < |states|
    requires Suspends(states[n].place)
    ensures SafeToDrop(q, states[n].peer)
  {
    GoodRun(q, states, moves, n);
    GoodIsSafeToDrop(q, states[n]);
  }

  predicate PunchesFromFreeSocket(s: State) {
    s.net.socket != Open && (s.net.allowTcp ==> s.net.socket == Released && !s.peer.winner)
  }

  lemma GoodPunchesFromFreeSocket(q: Request, s: State)
    requires Good(q, s) && s.place == Trying(ViaPunch, Race)
    ensures PunchesFromFreeSocket(s)
  {}

  /** A TCP punch from the rendezvous socket's address starts only after that socket was released. */
  lemma TcpPunchHasReleasedSocket(q: Request, states: seq<State>, moves: seq<Move>, n: nat)
    requires WellFormed(q) && IsRun(q, states, moves) && n < |states|
    requires states[n].place == Trying(ViaPunch, Race)
    ensures PunchesFromFreeSocket(states[n])
  {
    GoodRun(q, states, moves, n);
    GoodPunchesFromFreeSocket(q, states[n]);
  }

  // ---------------------------------------------------------------------------------------------
  // `_start`

  /** The options and set-up results `_start` looks at for a peer that is neither an IP nor domain:port. */
  datatype Environment = Environment(
    forceRelay: bool, policyRelay: bool, useWs: bool, proxy: bool, hasTurn: bool, legacySecure: bool,
    tcpPunch: bool, udpPunch: bool, v6Punch: bool, webrtc: bool,
    udpBound: bool, v6Bound: bool, offererBuilt: bool)

  predicate TcpPunchAllowed(e: Environment) {
    e.tcpPunch || !(e.udpPunch || e.v6Punch || e.webrtc)
  }

  predicate WantsOfferer(e: Environment) {
    e.webrtc && !e.proxy && (e.policyRelay ==> e.hasTurn)
  }

  function PreferredRequest(e: Environment): Request {
    Request(e.forceRelay, e.useWs, TcpPunchAllowed(e), e.legacySecure,
            e.udpPunch && !e.forceRelay && e.udpBound, e.v6Punch && !e.forceRelay && e.v6Bound,
            WantsOfferer(e) && e.offererBuilt)
  }

  /** The pure TCP punch request raced against the preferred one. */
  function FallbackRequest(e: Environment): Request {
    Request(e.forceRelay, e.useWs, TcpPunchAllowed(e), e.legacySecure, false, false, false)
  }

  predicate RacesFallback(e: Environment) {
    && !e.forceRelay
    && (PreferredRequest(e).hasUdp || PreferredRequest(e).hasOfferer)
    && TcpPunchAllowed(e)
  }

  ghost predicate CanReach(q: Request, s: State) {
    exists states, moves :: IsRun(q, states, moves) && states[|moves|] == s
  }

  ghost predicate CanReturn(q: Request, c: Conn) {
    exists s :: CanReach(q, s) && s.outcome == Returned(c)
  }

  ghost predicate StartCanReturn(e: Environment, c: Conn) {
    CanReturn(PreferredRequest(e), c) || (RacesFallback(e) && CanReturn(FallbackRequest(e), c))
  }

  /** Whatever `_start` returns: a relay is never reported as direct, and a forced relay never ends
      in a TCP, UDP or IPv6 connection. */
  lemma StartRoutes(e: Environment, c: Conn)
    requires StartCanReturn(e, c)
    ensures IsRelay(c.typ) ==> !c.direct
    ensures e.forceRelay ==> !IsPunch(c.typ)
  {
    var q := if CanReturn(PreferredRequest(e), c) then PreferredRequest(e) else FallbackRequest(e);
    var s :| CanReach(q, s) && s.outcome == Returned(c);
    var states, moves :| IsRun(q, states, moves) && states[|moves|] == s;
    GoodRun(q, states, moves, |moves|);
  }

  /** The same fate seen one level up. `_start` races the two requests, and the connection the
      preferred one returned has left its guard by then. */
  datatype Leg = PreferredLeg | FallbackLeg

  datatype StartConn = StartConn(leg: Leg, conn: Conn)

  predicate TwoLegs<E>(s: Schedule<StartConn, E>) {
    forall i | 0 <= i < |s| :: Succeeds(s[i]) ==>
      s[i].event.outcome.conn.leg == (if s[i].event.WebrtcDone? then PreferredLeg else FallbackLeg)
  }

  /** `_start` does not return the preferred request's connection: another verdict was reached, or the
      future was dropped while the race was still on. */
  predicate GivenUp<E>(r: Verdict<StartConn, E>) {
    !r.Won? || r.conn.leg == FallbackLeg
  }

  /** A connection the preferred request returned at wake-up `i` is given up, unclosed, exactly when
      `_start` is dropped while the race is on, or when the fallback request succeeds afterwards and
      ends it. Until then it is the connection the race is holding. */
  lemma PreferredGivenUpIff<E>(window: nat, isP2p: StartConn -> bool, s: Schedule<StartConn, E>, n: nat,
                               r: Verdict<StartConn, E>, i: nat)
    requires Legal({0}, s) && TwoLegs(s) && 0 < n <= |s|
    requires forall m | 0 < m < n :: Justified({0}, window, isP2p, s, m, Racing)
    requires Justified({0}, window, isP2p, s, n, r)
    requires i < n && s[i].event.WebrtcDone? && Succeeds(s[i])
    ensures GivenUp(r) <==> r.Racing? || (i < n - 1 && s[n - 1].event.OtherDone? && Succeeds(s[n - 1]))
    ensures i < n - 1 || r.Racing? ==> FirstSuccess(s, n, i)
  {
    forall h | 0 <= h < i && Succeeds(s[h])
      ensures i == n - 1 && !r.Racing?
    {
      assert s[h].event.OtherDone?;
      assert i < n - 1 ==> Justified({0}, window, isP2p, s, i + 1, Racing);
      BothDone(s, h, i);
    }
    if r.Won? && !Succeeds(s[n - 1]) {
      var h: nat :| FirstSuccess(s, n, h) && r.conn == s[h].event.outcome.conn;
      assert h == i;
    }
  }

  lemma BothDone<T, E>(s: Schedule<T, E>, h: nat, i: nat)
    requires Legal({0}, s) && h < i < |s| && s[h].event.OtherDone? && s[i].event.WebrtcDone?
    ensures NothingLive({0}, s, i + 1)
  {
    OthersOnlyShrink({0}, s, h);
    assert s[h].event.id in OthersLive({0}, s, h);
    OnceDoneStaysDone({0}, s, h, i + 1);
    assert s[i].event.WebrtcDone?;
  }

  lemma {:induction false} OnceDoneStaysDone<T, E>(others: set<nat>, s: Schedule<T, E>, h: nat, n: nat)
    requires h < n <= |s| && s[h].event.OtherDone?
    ensures s[h].event.id !in OthersLive(others, s, n)
    ensures OthersLive(others, s, n) <= others
    decreases n
  {
    if h < n - 1 {
      OnceDoneStaysDone(others, s, h, n - 1);
    } else {
      OthersOnlyShrink(others, s, h);
    }
  }

  lemma {:induction false} OthersOnlyShrink<T, E>(others: set<nat>, s: Schedule<T, E>, n: nat)
    requires n <= |s|
    ensures OthersLive(others, s, n) <= others
  {
    if n > 0 {
      OthersOnlyShrink(others, s, n - 1);
    }
  }
}
