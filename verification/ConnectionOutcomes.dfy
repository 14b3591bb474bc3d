/**
  What a call of `_start_inner` comes to: the outcome as a function of the answers it gets from its race
  on, and exactly which connections a request can return.
*/
module ConnectionOutcomes {
  import opened Prelude
  import opened TransportRace
  import opened ConnectionSetup

  /** Whatever depends on the environment is an await, where the future can be dropped: between awaits the
      code runs on by itself. */
  lemma OnlyAwaitsAsk(q: Request, s: State, a: Answer, a': Answer)
    requires !Suspends(s.place)
    ensures Next(q, s, a) == Next(q, s, a')
  {}

  // ---------------------------------------------------------------------------------------------
  // From the race on

  /** The answers from the race on: who wins it, and whether each later await succeeds. */
  datatype Luck = Luck(
    race: Option<Conn>, relayOk: bool, secureOk: bool, relayed: bool, fallbackOk: bool, fallbackSecureOk: bool)

  const NOBODY: Conn := Conn(Relay, false)

  function Said(luck: Luck, place: Place): Answer {
    match place
    case Trying(_, Race) =>
      Answer(luck.race.Some?, Silence, if luck.race.Some? then luck.race.value else NOBODY, luck.relayed)
    case Trying(_, RequestRelay) => Answer(luck.relayOk, Silence, NOBODY, luck.relayed)
    case Trying(_, Fallback) => Answer(luck.fallbackOk, Silence, NOBODY, luck.relayed)
    case Trying(_, FallbackSecure) => Answer(luck.fallbackSecureOk, Silence, NOBODY, luck.relayed)
    case _ => Answer(luck.secureOk, Silence, NOBODY, luck.relayed)
  }

  function Proceed(q: Request, s: State, luck: Luck, n: nat): State
    decreases n
  {
    if n == 0 then s else Proceed(q, Next(q, s, Said(luck, s.place)), luck, n - 1)
  }

  /** A relay has to be asked for: nobody won, or a relay is forced and the winner is not WebRTC. */
  predicate NeedsRelay(q: Request, won: Option<Conn>) {
    won.None? || (q.forceRelay && won.value.typ != WebRtc)
  }

  /** What the call secures: in the punch branch a relay where one is needed and named, else the winner. */
  function Chosen(q: Request, branch: Branch, relayServer: bool, luck: Luck): Option<Conn> {
    if branch.ViaPunch? && NeedsRelay(q, luck.race)
    then if relayServer && luck.relayOk then Some(Conn(Relay, false)) else None
    else luck.race
  }

  /** What it returns. A relayed WebRTC connection is not direct; one that cannot be secured is replaced
      by a relay if there is one to ask. */
  function Secured(q: Request, branch: Branch, relayServer: bool, c: Conn, luck: Luck): ConnectionSetup.Outcome {
    if luck.secureOk then
      Returned(if branch.ViaPunch? && c.typ == WebRtc && luck.relayed then Conn(WebRtc, false) else c)
    else if c.typ == WebRtc && (branch.ViaRelay? || relayServer) && luck.fallbackOk && luck.fallbackSecureOk then
      Returned(Conn(if branch.ViaRelay? && q.useWs then WebSocket else Relay, false))
    else Failed
  }

  function Expected(q: Request, branch: Branch, relayServer: bool, luck: Luck): ConnectionSetup.Outcome {
    var c := Chosen(q, branch, relayServer, luck);
    if c.None? then Failed else Secured(q, branch, relayServer, c.value, luck)
  }

  lemma Ends(q: Request, s: State, luck: Luck, n: nat)
    requires s.place.Ended?
    ensures Proceed(q, s, luck, n) == s
  {
    if n > 0 {
      Ends(q, s, luck, n - 1);
    }
  }

  lemma {:induction false} GoOn(q: Request, s: State, luck: Luck, n: nat, m: nat)
    ensures Proceed(q, s, luck, n + m) == Proceed(q, Proceed(q, s, luck, n), luck, m)
    decreases n
  {
    if n > 0 {
      GoOn(q, Next(q, s, Said(luck, s.place)), luck, n - 1, m);
    }
  }

  /** From securing on, at most four steps. */
  lemma SecureOutcome(q: Request, s: State, luck: Luck)
    requires s.place.Holding? && s.place.hold.Secure? && s.conn.Some? && s.outcome.Running?
    ensures Proceed(q, s, luck, 4).place.Ended?
    ensures Proceed(q, s, luck, 4).outcome == Secured(q, s.place.branch, s.relayServer, s.conn.value, luck)
  {
    var s1 := Next(q, s, Said(luck, s.place));
    if luck.secureOk {
      if s1.place.hold.QueryRelayed? {
        ReturnOutcome(q, Next(q, s1, Said(luck, s1.place)), luck, 2);
      } else {
        ReturnOutcome(q, s1, luck, 3);
      }
    } else if s1.place.Ended? {
      Ends(q, s1, luck, 3);
    } else {
      FallbackOutcome(q, s1, luck);
    }
  }

  lemma ReturnOutcome(q: Request, s: State, luck: Luck, n: nat)
    requires s.place.Holding? && s.place.hold.Return? && s.conn.Some? && n > 0
    ensures Proceed(q, s, luck, n).place.Ended? && Proceed(q, s, luck, n).outcome == Returned(s.conn.value)
  {
    Ends(q, Next(q, s, Said(luck, s.place)), luck, n - 1);
  }

  lemma FallbackOutcome(q: Request, s: State, luck: Luck)
    requires s.place.Trying? && s.place.try.Fallback?
    ensures Proceed(q, s, luck, 3).place.Ended?
    ensures Proceed(q, s, luck, 3).outcome ==
            if luck.fallbackOk && luck.fallbackSecureOk
            then Returned(Conn(if s.place.branch.ViaRelay? && q.useWs then WebSocket else Relay, false)) else Failed
  {
    var s1 := Next(q, s, Said(luck, s.place));
    if !luck.fallbackOk {
      Ends(q, s1, luck, 2);
    } else {
      var s2 := Next(q, s1, Said(luck, s1.place));
      if !luck.fallbackSecureOk {
        Ends(q, s2, luck, 1);
      } else {
        ReturnOutcome(q, s2, luck, 1);
      }
    }
  }

  /** The relay override of `connect`, at most six steps before the end. */
  lemma DecidingOutcome(q: Request, s: State, luck: Luck)
    requires s.place.Deciding? && s.outcome.Running? && s.conn == luck.race
    ensures Proceed(q, s, luck, 6).place.Ended?
    ensures Proceed(q, s, luck, 6).outcome == Expected(q, ViaPunch, s.relayServer, luck)
  {
    var s1 := Next(q, s, Said(luck, s.place));
    if s1.place.Ended? {
      Ends(q, s1, luck, 5);
    } else if s1.place.Holding? {
      SecureOutcome(q, s1, luck);
      GoOn(q, s1, luck, 4, 1);
      Ends(q, Proceed(q, s1, luck, 4), luck, 1);
    } else {
      var s2 := Next(q, s1, Said(luck, s1.place));
      if luck.relayOk {
        SecureOutcome(q, s2, luck);
      } else {
        Ends(q, s2, luck, 4);
      }
    }
  }

  /** Whatever the answers from the race on, the call ends within seven steps, in the outcome they call
      for. */
  lemma RaceOutcome(q: Request, s: State, luck: Luck)
    requires s.place.Trying? && s.place.try.Race? && s.outcome.Running?
    ensures Proceed(q, s, luck, 7).place.Ended?
    ensures Proceed(q, s, luck, 7).outcome == Expected(q, s.place.branch, s.relayServer, luck)
  {
    var s1 := Next(q, s, Said(luck, s.place));
    if s1.place.Deciding? {
      DecidingOutcome(q, s1, luck);
    } else if s1.place.Ended? {
      Ends(q, s1, luck, 6);
    } else {
      SecureOutcome(q, s1, luck);
      GoOn(q, s1, luck, 4, 2);
      Ends(q, Proceed(q, s1, luck, 4), luck, 2);
    }
  }

  /** A run fails at the relay override exactly when a relay is needed and none was named. */
  lemma FailsAtDecidingIff(q: Request, states: seq<State>, moves: seq<Move>, n: nat)
    requires WellFormed(q) && IsRun(q, states, moves) && n < |moves| && states[n].place.Deciding?
    ensures states[n + 1].outcome.Failed? <==> NeedsRelay(q, states[n].conn) && !states[n].relayServer
  {
    GoodRun(q, states, moves, n);
    assert Follows(q, states[n], moves[n], states[n + 1]);
  }

  // ---------------------------------------------------------------------------------------------
  // Which connections a request can return

  /** The punched transports need their permission or socket and are direct; WebRTC needs an offerer;
      relays are never direct, and WebSocket is what a relay is called over ws. */
  predicate Plausible(q: Request, c: Conn) {
    match c.typ
    case Tcp => q.tcpPunchAllowed && c.direct
    case Udp => q.hasUdp && c.direct
    case Ipv6 => q.hasV6 && c.direct
    case WebRtc => q.hasOfferer
    case Relay => !c.direct
    case WebSocket => q.useWs && !c.direct
  }

  predicate Returnable(q: Request, c: Conn) {
    Plausible(q, c) && (q.forceRelay ==> !IsPunch(c.typ))
  }

  predicate Sourced(q: Request, s: State) {
    && (s.net.allowTcp ==> q.tcpPunchAllowed) && (s.net.udp ==> q.hasUdp) && (s.net.v6 ==> q.hasV6)
    && (s.conn.Some? ==> Plausible(q, s.conn.value))
    && (s.place.Holding? && s.place.hold.QueryRelayed? ==> IsWebRtc(s.conn))
    && (s.outcome.Returned? ==> Plausible(q, s.outcome.conn))
  }

  lemma SourcedReply(q: Request, s: State, reply: Reply)
    requires Sourced(q, s) && s.place == Asking(AwaitReply) && s.outcome.Running?
    ensures Sourced(q, OnReply(s, reply))
  {}

  lemma SourcedAsking(q: Request, s: State, ask: Ask, a: Answer)
    requires Sourced(q, s) && s.place == Asking(ask) && s.outcome.Running?
    ensures Sourced(q, NextAsking(q, s, ask, a))
  {
    if ask.AwaitReply? {
      SourcedReply(q, s, a.reply);
    }
  }

  lemma SourcedTrying(q: Request, s: State, branch: Branch, try: Try, a: Answer)
    requires Owned(q, s) && Sourced(q, s) && s.place == Trying(branch, try) && s.outcome.Running?
    requires Enabled(q, s, ConnectionSetup.Go(a))
    ensures Sourced(q, NextTrying(q, s, branch, try, a))
  {}

  lemma SourcedHolding(q: Request, s: State, branch: Branch, hold: Hold, a: Answer)
    requires Sourced(q, s) && s.place == Holding(branch, hold) && s.outcome.Running?
    ensures Sourced(q, NextHolding(s, branch, hold, a))
  {}

  lemma SourcedAdopted(q: Request, s: State, branch: Branch, adopt: Adopt)
    requires Sourced(q, s) && s.place == Adopted(branch, adopt) && s.outcome.Running?
    ensures Sourced(q, NextAdopted(s, branch, adopt))
  {}

  lemma SourcedNext(q: Request, s: State, a: Answer)
    requires Good(q, s) && Sourced(q, s) && Enabled(q, s, ConnectionSetup.Go(a))
    ensures Sourced(q, Next(q, s, a))
  {
    match s.place
    case Asking(ask) => SourcedAsking(q, s, ask, a);
    case Adopted(branch, adopt) => SourcedAdopted(q, s, branch, adopt);
    case Trying(branch, try) => SourcedTrying(q, s, branch, try, a);
    case Holding(branch, hold) => SourcedHolding(q, s, branch, hold, a);
    case SettingUp(_) | TakingOver(_) | Deciding | Ended =>
  }

  lemma {:induction false} SourcedRun(q: Request, states: seq<State>, moves: seq<Move>, n: nat)
    requires WellFormed(q) && IsRun(q, states, moves) && n < |states|
    ensures Sourced(q, states[n])
  {
    if n > 0 {
      SourcedRun(q, states, moves, n - 1);
      GoodRun(q, states, moves, n - 1);
      assert Follows(q, states[n - 1], moves[n - 1], states[n]);
      match moves[n - 1]
      case Drop =>
      case Go(a) => SourcedNext(q, states[n - 1], a);
    }
  }

  lemma OnlyReturnable(q: Request, c: Conn)
    requires WellFormed(q) && CanReturn(q, c)
    ensures Returnable(q, c)
  {
    var s :| CanReach(q, s) && s.outcome == Returned(c);
    var states, moves :| IsRun(q, states, moves) && states[|moves|] == s;
    SourcedRun(q, states, moves, |moves|);
    GoodRun(q, states, moves, |moves|);
  }

  /** One more step of a run. */
  lemma Advance(q: Request, s: State, a: Answer) returns (s': State)
    requires CanReach(q, s) && Enabled(q, s, ConnectionSetup.Go(a))
    ensures CanReach(q, s') && s' == Next(q, s, a)
  {
    s' := Next(q, s, a);
    var states, moves :| IsRun(q, states, moves) && states[|moves|] == s;
    Appended(q, states, moves, ConnectionSetup.Go(a), s');
  }

  lemma Appended(q: Request, states: seq<State>, moves: seq<Move>, m: Move, s': State)
    requires IsRun(q, states, moves) && Follows(q, states[|moves|], m, s')
    ensures IsRun(q, states + [s'], moves + [m]) && CanReach(q, s')
  {
    var states', moves' := states + [s'], moves + [m];
    forall i | 0 <= i < |moves'|
      ensures Follows(q, states'[i], moves'[i], states'[i + 1])
    {
      assert i < |moves| ==> Follows(q, states[i], moves[i], states[i + 1]);
    }
    assert states'[|moves'|] == s';
  }

  function Yes(reply: Reply): Answer {
    Answer(true, reply, NOBODY, false)
  }

  const NO: Answer := Answer(false, Silence, NOBODY, false)

  lemma Starts(q: Request)
    ensures CanReach(q, Init(q))
  {
    assert IsRun(q, [Init(q)], []);
  }

  /** A request can greet the rendezvous server with its offerer or, after a failed key exchange, without. */
  lemma Greets(q: Request, keep: bool) returns (s: State)
    ensures CanReach(q, s) && (s.place == Asking(LegacySecure) || s.place == Asking(UdpNatWait))
    ensures s.outcome.Running? && s.net == Init(q).net
    ensures s.peer.offerer == (q.hasOfferer && keep) && !s.peer.setup && !s.peer.bare && !s.peer.winner
  {
    Starts(q);
    s := Advance(q, Init(q), Yes(Silence));
    s := Advance(q, s, Yes(Silence));
    if q.hasOfferer {
      s := Exchanges(q, s, keep);
    }
  }

  lemma Exchanges(q: Request, s: State, keep: bool) returns (s': State)
    requires CanReach(q, s) && s.place == Asking(KeyExchange) && s.peer.offerer
    ensures CanReach(q, s') && (s'.place == Asking(LegacySecure) || s'.place == Asking(UdpNatWait))
    ensures s'.outcome == s.outcome && s'.net == s.net && s'.peer.offerer == keep
    ensures s'.peer.setup == s.peer.setup && s'.peer.bare == s.peer.bare && s'.peer.winner == s.peer.winner
  {
    s' := Advance(q, s, if keep then Yes(Silence) else NO);
    if !keep {
      s' := Advance(q, s', Yes(Silence));
    }
  }

  /** So it can get as far as waiting for the reply. */
  lemma Asks(q: Request, keep: bool) returns (s: State)
    ensures CanReach(q, s) && s.place == Asking(AwaitReply) && s.outcome.Running?
    ensures s.peer.offerer == (q.hasOfferer && keep) && !s.peer.setup && !s.peer.bare && !s.peer.winner
    ensures s.net == Net(Open, q.tcpPunchAllowed && !s.peer.offerer, q.hasUdp, q.hasV6)
  {
    s := Greets(q, keep);
    s := SendsRequest(q, s);
  }

  lemma SendsRequest(q: Request, s: State) returns (s': State)
    requires CanReach(q, s) && (s.place == Asking(LegacySecure) || s.place == Asking(UdpNatWait))
    ensures CanReach(q, s')
    ensures s' == s.(place := Asking(AwaitReply), net := s.net.(allowTcp := q.tcpPunchAllowed && !s.peer.offerer))
  {
    s' := s;
    if s'.place == Asking(LegacySecure) {
      s' := Advance(q, s', Yes(Silence));
    }
    s' := Advance(q, s', Yes(Silence));
    s' := Advance(q, s', Yes(Silence));
    s' := Advance(q, s', Yes(Silence));
  }

  /** What the reply says, and whether setting up its answer succeeds. */
  datatype Heard = Heard(answer: bool, relayServer: bool, udpOk: bool, v6Ok: bool, setupOk: bool)

  function Told(h: Heard, hasPort: bool): Reply {
    Punched(h.answer, h.relayServer, hasPort, h.udpOk, h.v6Ok)
  }

  function SetUp(h: Heard): Answer {
    if h.setupOk then Yes(Silence) else NO
  }

  /** The offerer takes part in the race exactly when it was answered and could be set up; else it is
      closed before. */
  lemma Adoption(q: Request, s: State, branch: Branch, h: Heard) returns (s': State)
    requires CanReach(q, s) && s.place == Asking(TakeAnswer(branch)) && s.answered == h.answer
    requires !s.peer.setup && !s.peer.bare && !s.peer.winner
    ensures CanReach(q, s') && s'.place == Adopted(branch, DropOfferer)
    ensures s' == s.(place := s'.place, peer := s'.peer, net := s'.net)
    ensures s'.peer.bare == (s.peer.offerer && h.answer && h.setupOk) && !s'.peer.setup && !s'.peer.winner
    ensures s'.net == s.net.(socket := if s'.peer.bare then Bridged else if branch.ViaPunch? then Released else s.net.socket)
    ensures s'.peer.bare ==> !s'.peer.offerer
  {
    s' := Advance(q, s, Yes(Silence));
    if s.peer.offerer && h.answer {
      s' := Advance(q, s', SetUp(h));
      if h.setupOk {
        s' := Advance(q, s', Yes(Silence));
      }
    }
  }

  /** A punch reply leads to the race of the punch branch, with the sockets that could be connected. */
  lemma PunchReply(q: Request, s: State, h: Heard) returns (s': State)
    requires CanReach(q, s) && s.place == Asking(AwaitReply) && s.outcome.Running?
    requires !s.peer.setup && !s.peer.bare && !s.peer.winner
    ensures CanReach(q, s') && s'.place == Trying(ViaPunch, Race) && s'.outcome.Running?
    ensures s'.peer.winner == (s.peer.offerer && h.answer && h.setupOk) && !s'.peer.offerer
    ensures s'.net.allowTcp == s.net.allowTcp && s'.relayServer == h.relayServer
    ensures s'.net.udp == (s.net.udp && h.udpOk) && s'.net.v6 == (s.net.v6 && h.v6Ok)
  {
    s' := Advance(q, s, Yes(Told(h, true)));
    s' := Advance(q, s', Yes(Silence));
    s' := Adoption(q, s', ViaPunch, h);
    s' := AddressKnown(q, s');
  }

  lemma AddressKnown(q: Request, s: State) returns (s': State)
    requires CanReach(q, s) && s.place == Adopted(ViaPunch, DropOfferer) && s.hasPeerAddress && !s.peer.setup && !s.peer.winner
    ensures CanReach(q, s') && s'.place == Trying(ViaPunch, Race)
    ensures s' == s.(place := s'.place, peer := s'.peer) && s'.peer.winner == s.peer.bare && !s'.peer.offerer
  {
    s' := Advance(q, s, Yes(Silence));
    s' := Advance(q, s', Yes(Silence));
    s' := Advance(q, s', Yes(Silence));
    s' := Advance(q, s', Yes(Silence));
  }

  /** A relay reply leads to the race of the relay branch. */
  lemma RelayReply(q: Request, s: State, h: Heard) returns (s': State)
    requires CanReach(q, s) && s.place == Asking(AwaitReply) && s.outcome.Running?
    requires !s.peer.setup && !s.peer.bare && !s.peer.winner
    ensures CanReach(q, s') && s'.place == Trying(ViaRelay, Race) && s'.outcome.Running?
    ensures s'.peer.winner == (s.peer.offerer && h.answer && h.setupOk) && !s'.peer.offerer
    ensures s'.net.v6 == (s.net.v6 && h.v6Ok)
  {
    s' := Advance(q, s, Yes(Relayed(h.answer)));
    s' := Advance(q, s', if h.v6Ok then Yes(Silence) else NO);
    s' := Adoption(q, s', ViaRelay, h);
    s' := Advance(q, s', Yes(Silence));
    s' := Advance(q, s', Yes(Silence));
  }

  /** A reply without an address to punch to, or a refusal, ends the call. */
  lemma NoAddressFails(q: Request, s: State, h: Heard)
    requires s.place == Asking(AwaitReply) && !s.peer.offerer
    ensures OnReply(s, Refused).outcome == Failed
    ensures Waiting(q, OnReply(s, Told(h, false)), 4).outcome == Failed
  {
    var s1 := OnReply(s, Told(h, false));
    var s2 := Next(q, s1, QUIET);
    var s3 := Next(q, s2, QUIET);
    var s4 := Next(q, s3, QUIET);
    assert Waiting(q, s1, 4) == Waiting(q, s2, 3) == Waiting(q, s3, 2) == Waiting(q, s4, 1) == Next(q, s4, QUIET);
  }

  /** The answers from the race on keep a run a run. */
  lemma {:induction false} ProceedReaches(q: Request, s: State, luck: Luck, n: nat)
    requires CanReach(q, s)
    requires s.place.Trying? && s.place.try.Race? && luck.race.Some? ==> CanWin(q, s, s.place.branch, luck.race.value)
    requires s.place.Trying? || s.place.Deciding? || s.place.Holding? || s.place.Ended?
    requires s.place.Trying? ==> !s.place.try.NatTypeAgain?
    ensures CanReach(q, Proceed(q, s, luck, n))
    decreases n
  {
    if n > 0 {
      var s' := Advance(q, s, Said(luck, s.place));
      ProceedReaches(q, s', luck, n - 1);
    }
  }

  const GOOD: Heard := Heard(true, true, true, true, true)
  const FINE: Luck := Luck(None, true, true, false, true, true)

  lemma ReturnsFromRace(q: Request, s: State, luck: Luck, c: Conn)
    requires CanReach(q, s) && s.place.Trying? && s.place.try.Race? && s.outcome.Running?
    requires luck.race.Some? ==> CanWin(q, s, s.place.branch, luck.race.value)
    requires Expected(q, s.place.branch, s.relayServer, luck) == Returned(c)
    ensures CanReturn(q, c)
  {
    RaceOutcome(q, s, luck);
    ProceedReaches(q, s, luck, 7);
  }

  /** Over the relay branch: WebRTC with the offerer, WebSocket without. */
  lemma ReturnsViaRelay(q: Request, c: Conn)
    requires Plausible(q, c) && (c.typ == WebRtc || c.typ == WebSocket)
    ensures CanReturn(q, c)
  {
    var s := Asks(q, c.typ == WebRtc);
    s := RelayReply(q, s, GOOD);
    ReturnsFromRace(q, s, FINE.(race := Some(c)), c);
  }

  /** Over the punch branch: the punched transports, and a relay when nobody wins. */
  lemma ReturnsViaPunch(q: Request, c: Conn)
    requires Returnable(q, c) && (IsPunch(c.typ) || c.typ == Relay)
    ensures CanReturn(q, c)
  {
    var s := Asks(q, false);
    s := PunchReply(q, s, GOOD);
    ReturnsFromRace(q, s, FINE.(race := if c.typ == Relay then None else Some(c)), c);
  }

  /** A request can return exactly the connections its permissions, sockets and offerer allow, and under
      a forced relay no punched one. */
  lemma ReturnableIff(q: Request, c: Conn)
    requires WellFormed(q)
    ensures CanReturn(q, c) <==> Returnable(q, c)
  {
    if CanReturn(q, c) {
      OnlyReturnable(q, c);
    } else if Returnable(q, c) {
      if c.typ == WebRtc || c.typ == WebSocket {
        ReturnsViaRelay(q, c);
      } else {
        ReturnsViaPunch(q, c);
      }
    }
  }

  /** What `_start` can return, in terms of its options: the fallback request adds nothing of its own. */
  lemma StartReturnsIff(e: Environment, c: Conn)
    ensures StartCanReturn(e, c) <==>
            match c.typ
            case Tcp => !e.forceRelay && c.direct && (e.tcpPunch || !(e.udpPunch || e.v6Punch || e.webrtc))
            case Udp => !e.forceRelay && c.direct && e.udpPunch && e.udpBound
            case Ipv6 => !e.forceRelay && c.direct && e.v6Punch && e.v6Bound
            case WebRtc => e.webrtc && !e.proxy && (e.policyRelay ==> e.hasTurn) && e.offererBuilt
            case Relay => !c.direct
            case WebSocket => !c.direct && e.useWs
  {
    ReturnableIff(PreferredRequest(e), c);
    ReturnableIff(FallbackRequest(e), c);
  }

  /** The fallback request is raced exactly when it could return a TCP punch and the preferred one carries
      more than that. */
  lemma RacesFallbackIff(e: Environment)
    ensures RacesFallback(e) <==>
            && CanReturn(FallbackRequest(e), Conn(Tcp, true))
            && (PreferredRequest(e).hasUdp || CanReturn(PreferredRequest(e), Conn(WebRtc, true)))
  {
    ReturnableIff(FallbackRequest(e), Conn(Tcp, true));
    ReturnableIff(PreferredRequest(e), Conn(WebRtc, true));
  }

  // ---------------------------------------------------------------------------------------------
  // A silent rendezvous server

  const QUIET: Answer := Answer(true, Silence, NOBODY, false)

  function Waiting(q: Request, s: State, n: nat): State
    decreases n
  {
    if n == 0 then s else Waiting(q, Next(q, s, QUIET), n - 1)
  }

  lemma LastSilence(q: Request, s: State)
    requires s.place == Asking(AwaitReply) && s.attempt == 3 && !s.hasPeerAddress && !s.answered
    ensures Waiting(q, s, 4).outcome == Failed && Waiting(q, s, 4).attempt == 3
  {
    var s1 := Next(q, s, QUIET);
    var s2 := Next(q, s1, QUIET);
    var s3 := Next(q, s2, QUIET);
    assert Waiting(q, s, 4) == Waiting(q, s1, 3) == Waiting(q, s2, 2) == Waiting(q, s3, 1) == Next(q, s3, QUIET);
  }

  /** A request that is never answered is sent three times, then the call fails. */
  lemma SilenceFails(q: Request, s: State)
    requires s.place == Asking(SendRequest) && s.attempt == 1 && !s.hasPeerAddress && !s.answered
    ensures Waiting(q, s, 2).place == Asking(SendRequest) && Waiting(q, s, 4).place == Asking(SendRequest)
    ensures Waiting(q, s, 9).outcome == Failed && Waiting(q, s, 9).attempt == 3
  {
    var s1 := Next(q, s, QUIET);
    var s2 := Next(q, s1, QUIET);
    assert Waiting(q, s, 2) == s2 && Waiting(q, s, 9) == Waiting(q, s1, 8) == Waiting(q, s2, 7);
    var s3 := Next(q, s2, QUIET);
    var s4 := Next(q, s3, QUIET);
    assert Waiting(q, s, 4) == Waiting(q, s2, 2) == s4 && Waiting(q, s2, 7) == Waiting(q, s3, 6) == Waiting(q, s4, 5);
    var s5 := Next(q, s4, QUIET);
    assert Waiting(q, s4, 5) == Waiting(q, s5, 4);
    LastSilence(q, s5);
  }

  // ---------------------------------------------------------------------------------------------
  // What is sent, and when

  /** Step `m` of a run was a handshake of this kind, and it succeeded. */
  predicate Succeeded(states: seq<State>, moves: seq<Move>, ask: Ask, m: nat)
    requires m < |moves| <= |states|
  {
    Does(states[m], moves[m], ask)
  }

  ghost predicate Did(states: seq<State>, moves: seq<Move>, ask: Ask, n: nat)
    requires n <= |moves| <= |states|
  {
    exists m: nat | m < n :: Succeeded(states, moves, ask, m)
  }

  predicate PastGreeting(p: Place) {
    p.Asking? && (p.ask.UdpNatWait? || p.ask.Compose? || p.ask.SendRequest? || p.ask.AwaitReply?)
  }

  /** What is known of the handshakes at a place: whether the key exchange or the older one succeeded. */
  predicate Handshaken(q: Request, s: State, exchanged: bool, secured: bool) {
    && (s.place == Asking(Reconnect) || s.place == Asking(LegacySecure) ==> !s.peer.offerer)
    && (PastGreeting(s.place) ==> (s.peer.offerer ==> exchanged) && (q.legacySecure ==> exchanged || secured))
  }

  predicate Does(s: State, m: Move, ask: Ask) {
    s.place == Asking(ask) && m.Go? && m.answer.ok
  }

  lemma HandshakenReply(q: Request, s: State, reply: Reply, exchanged: bool, secured: bool)
    requires Handshaken(q, s, exchanged, secured) && s.place == Asking(AwaitReply)
    ensures Handshaken(q, OnReply(s, reply), exchanged, secured)
  {}

  lemma HandshakenAsking(q: Request, s: State, ask: Ask, a: Answer, exchanged: bool, secured: bool)
    requires Handshaken(q, s, exchanged, secured) && s.place == Asking(ask)
    ensures Handshaken(q, NextAsking(q, s, ask, a), exchanged || Does(s, Move.Go(a), KeyExchange),
                       secured || Does(s, Move.Go(a), LegacySecure))
  {
    if ask.AwaitReply? {
      HandshakenReply(q, s, a.reply, exchanged, secured);
    }
  }

  /** Nothing leads back to asking. */
  lemma NeverAsksAgain(q: Request, s: State, a: Answer)
    requires !s.place.Asking?
    ensures !Next(q, s, a).place.Asking?
  {
    match s.place
    case Adopted(branch, adopt) => AdoptedGoesOn(s, branch, adopt);
    case Trying(branch, try) => TryingGoesOn(q, s, branch, try, a);
    case Holding(branch, hold) => HoldingGoesOn(s, branch, hold, a);
    case _ =>
  }

  lemma AdoptedGoesOn(s: State, branch: Branch, adopt: Adopt)
    requires s.place == Adopted(branch, adopt)
    ensures !NextAdopted(s, branch, adopt).place.Asking?
  {}

  lemma TryingGoesOn(q: Request, s: State, branch: Branch, try: Try, a: Answer)
    requires s.place == Trying(branch, try)
    ensures !NextTrying(q, s, branch, try, a).place.Asking?
  {}

  lemma HoldingGoesOn(s: State, branch: Branch, hold: Hold, a: Answer)
    requires s.place == Holding(branch, hold)
    ensures !NextHolding(s, branch, hold, a).place.Asking?
  {}

  lemma HandshakenStep(q: Request, s: State, m: Move, s': State, exchanged: bool, secured: bool)
    requires Handshaken(q, s, exchanged, secured) && Follows(q, s, m, s')
    ensures Handshaken(q, s', exchanged || Does(s, m, KeyExchange), secured || Does(s, m, LegacySecure))
  {
    match m
    case Drop =>
    case Go(a) =>
      if s.place.Asking? {
        HandshakenAsking(q, s, s.place.ask, a, exchanged, secured);
      } else {
        NeverAsksAgain(q, s, a);
      }
  }

  lemma StillDid(states: seq<State>, moves: seq<Move>, ask: Ask, n: nat)
    requires n < |moves| <= |states|
    ensures Did(states, moves, ask, n + 1) <==> Did(states, moves, ask, n) || Succeeded(states, moves, ask, n)
  {
    if Did(states, moves, ask, n) {
      var m: nat :| m < n && Succeeded(states, moves, ask, m);
      assert m < n + 1;
    }
  }

  lemma {:induction false} HandshakesFirst(q: Request, states: seq<State>, moves: seq<Move>, n: nat)
    requires IsRun(q, states, moves) && n < |states|
    ensures Handshaken(q, states[n], Did(states, moves, KeyExchange, n), Did(states, moves, LegacySecure, n))
  {
    if n > 0 {
      HandshakesFirst(q, states, moves, n - 1);
      StillDid(states, moves, KeyExchange, n - 1);
      StillDid(states, moves, LegacySecure, n - 1);
      HandshakenStep(q, states[n - 1], moves[n - 1], states[n],
                     Did(states, moves, KeyExchange, n - 1), Did(states, moves, LegacySecure, n - 1));
    }
  }

  /** Nothing goes out in the clear that must not: a request with an offer is sent only after the key
      exchange succeeded, one with a token only after that or the older handshake did. */
  lemma NothingInTheClear(q: Request, states: seq<State>, moves: seq<Move>, n: nat)
    requires IsRun(q, states, moves) && n < |states| && states[n].place == Asking(SendRequest)
    ensures states[n].peer.offerer ==> Did(states, moves, KeyExchange, n)
    ensures q.legacySecure ==> Did(states, moves, KeyExchange, n) || Did(states, moves, LegacySecure, n)
  {
    HandshakesFirst(q, states, moves, n);
  }

  // ---------------------------------------------------------------------------------------------
  // The leak of `_start`

  const TURN_WIN: Conn := Conn(WebRtc, false)
  const TCP_WIN: Conn := Conn(Tcp, true)
  const HELD: Wake<StartConn, int> := At(0, WebrtcDone(Ok(StartConn(PreferredLeg, TURN_WIN))))
  const DIRECT: Wake<StartConn, int> := At(1, OtherDone(0, Ok(StartConn(FallbackLeg, TCP_WIN))))

  predicate IsDirect(r: StartConn) {
    r.conn.direct
  }

  /** It can happen whenever `_start` races the two requests with an offerer: the preferred one can return
      a relayed WebRTC connection, unclosed, the fallback a direct TCP connection, and when the second
      comes one tick after the first, it wins the race that was holding the first. */
  lemma RelayedWebRtcCanBeLeaked(e: Environment)
    requires RacesFallback(e) && PreferredRequest(e).hasOfferer
    ensures CanReturn(PreferredRequest(e), TURN_WIN) && CanReturn(FallbackRequest(e), TCP_WIN)
    ensures Legal({0}, [HELD, DIRECT]) && TwoLegs([HELD, DIRECT])
    ensures Justified({0}, 2500, IsDirect, [HELD, DIRECT], 1, Racing)
    ensures Justified({0}, 2500, IsDirect, [HELD, DIRECT], 2, Won(StartConn(FallbackLeg, TCP_WIN)))
  {
    ReturnableIff(PreferredRequest(e), TURN_WIN);
    ReturnableIff(FallbackRequest(e), TCP_WIN);
    LeakSchedule([HELD, DIRECT]);
  }

  lemma LeakSchedule(s: Schedule<StartConn, int>)
    requires s == [HELD, DIRECT]
    ensures Legal({0}, s) && TwoLegs(s)
    ensures Justified({0}, 2500, IsDirect, s, 1, Racing)
    ensures Justified({0}, 2500, IsDirect, s, 2, Won(StartConn(FallbackLeg, TCP_WIN)))
  {
    assert OthersLive({0}, s, 0) == {0} && OthersLive({0}, s, 1) == {0};
    assert 0 in OthersLive({0}, s, 1);
  }
}
