/**
  The UDP punch: `punch_udp` as one end, and two ends over a network that loses, duplicates and
  reorders packets.

  Times are in microseconds. A packet in flight may be delivered any number of times, in any order, or
  never, and may be lost for good at any moment; that is up to the run.
*/
module UdpPunch {
  import opened Prelude
  import opened PunchPacket

  const FIRST_INTERVAL: nat := 20_000
  const MAX_INTERVAL: nat := 200_000
  const MAX_TIME: nat := 3_000_000

  /** Not called yet, looping, or the outcome of `punch_udp`: `Ok(None)`, `Ok(Some(data))`, timed out. */
  datatype Phase = Waiting | Punching | Confirmed | Received(data: Packet) | TimedOut

  /** The locals of the loop. */
  datatype End = End(
    listen: bool, tid: nat, phase: Phase,
    probesSent: nat, probesSeen: nat, acked: bool, recvErrors: nat,
    retryInterval: nat, nextProbe: nat, deadline: nat)

  /** What wakes the loop up. A timer that is not due yet does nothing. */
  datatype Event = Deadline | Retransmit | RecvError | Recv(data: Packet)

  datatype Wake = Wake(now: nat, event: Event)

  function Idle(listen: bool, tid: nat): End {
    End(listen, tid, Waiting, 0, 0, false, 0, FIRST_INTERVAL, 0, 0)
  }

  function Start(listen: bool, tid: nat, now: nat): End {
    End(listen, tid, Punching, 1, 0, false, 0, FIRST_INTERVAL, now + FIRST_INTERVAL, now + MAX_TIME)
  }

  function Slower(interval: nat): nat {
    if interval * 3 / 2 < MAX_INTERVAL then interval * 3 / 2 else MAX_INTERVAL
  }

  /** What an end sends when woken up. */
  function Sends(e: End, w: Wake): seq<Packet> {
    if !e.phase.Punching? then []
    else
      match w.event
      case Retransmit => if w.now >= e.nextProbe then [Probe(e.tid)] else []
      case Recv(data) =>
        if Tid(data, PUNCH_ACK) != Some(e.tid) && Tid(data, PUNCH_PROBE).Some?
        then [Ack(Tid(data, PUNCH_PROBE).value)] else []
      case _ => []
  }

  /** What an end becomes when woken up. */
  function After(e: End, w: Wake): End {
    if !e.phase.Punching? then e
    else
      match w.event
      case Deadline => if w.now >= e.deadline then e.(phase := TimedOut) else e
      case Retransmit =>
        if w.now >= e.nextProbe
        then e.(probesSent := e.probesSent + 1, retryInterval := Slower(e.retryInterval), nextProbe := w.now + Slower(e.retryInterval))
        else e
      case RecvError => e.(recvErrors := e.recvErrors + 1)
      case Recv(data) =>
        if Tid(data, PUNCH_ACK) == Some(e.tid) then if e.listen then e.(acked := true) else e.(phase := Confirmed)
        else if Tid(data, PUNCH_PROBE).Some? then e.(probesSeen := e.probesSeen + 1)
        else if Tid(data, PUNCH_ACK).None? && |data| > 0 then e.(phase := Received(data))
        else e
  }

  function AfterAll(e: End, script: seq<Wake>): End {
    if script == [] then e else After(AfterAll(e, script[..|script| - 1]), script[|script| - 1])
  }

  function SendsAll(e: End, script: seq<Wake>): seq<Packet> {
    if script == [] then []
    else SendsAll(e, script[..|script| - 1]) + Sends(AfterAll(e, script[..|script| - 1]), script[|script| - 1])
  }

  lemma OneMore(e: End, script: seq<Wake>, i: nat)
    requires i < |script|
    ensures AfterAll(e, script[..i + 1]) == After(AfterAll(e, script[..i]), script[i])
    ensures SendsAll(e, script[..i + 1]) == SendsAll(e, script[..i]) + Sends(AfterAll(e, script[..i]), script[i])
  {
    assert script[..i + 1][..i] == script[..i];
  }

  /** The body of the loop: the arm that ran, updating the locals. */
  method Turn(e: End, w: Wake) returns (e': End, sent: seq<Packet>)
    requires e.phase.Punching?
    ensures e' == After(e, w) && sent == Sends(e, w)
  {
    e', sent := e, [];
    match w.event {
      case Deadline =>
        if w.now >= e.deadline {
          e' := e'.(phase := TimedOut);
        }
      case Retransmit =>
        if w.now >= e.nextProbe {
          sent := [Probe(e.tid)];
          e' := e'.(probesSent := e.probesSent + 1);
          e' := e'.(retryInterval := Slower(e.retryInterval));
          e' := e'.(nextProbe := w.now + e'.retryInterval);
        }
      case RecvError =>
        e' := e'.(recvErrors := e.recvErrors + 1);
      case Recv(data) =>
        var ack, peerTid := Tid(data, PUNCH_ACK), Tid(data, PUNCH_PROBE);
        if ack == Some(e.tid) {
          if !e.listen {
            e' := e'.(phase := Confirmed);
          } else {
            e' := e'.(acked := true);
          }
        } else if peerTid.Some? {
          e' := e'.(probesSeen := e.probesSeen + 1);
          sent := [Ack(peerTid.value)];
        } else if ack.None? && |data| > 0 {
          e' := e'.(phase := Received(data));
        }
    }
  }

  /** The whole call, over the wake-ups it gets: it stops at its first verdict. */
  method PunchUdp(listen: bool, tid: nat, start: nat, script: seq<Wake>) returns (e: End, sent: seq<Packet>)
    ensures e == AfterAll(Start(listen, tid, start), script)
    ensures sent == [Probe(tid)] + SendsAll(Start(listen, tid, start), script)
    // As many probes were sent as were counted.
    ensures tid < TID_LIMIT ==> CountOf(Probe(tid), sent) == e.probesSent
  {
    ghost var e0 := Start(listen, tid, start);
    e := Start(listen, tid, start);
    sent := [Probe(tid)];
    var i := 0;
    while i < |script| && e.phase.Punching?
      invariant i <= |script|
      invariant e == AfterAll(e0, script[..i])
      invariant sent == [Probe(tid)] + SendsAll(e0, script[..i])
    {
      OneMore(e0, script, i);
      var more;
      e, more := Turn(e, script[i]);
      sent := sent + more;
      i := i + 1;
    }
    StoppedStays(e0, script, i);
    if tid < TID_LIMIT {
      ProbesAreSent(listen, tid, start, script);
    }
  }

  function CountOf(p: Packet, sent: seq<Packet>): nat {
    if sent == [] then 0 else CountOf(p, sent[..|sent| - 1]) + if sent[|sent| - 1] == p then 1 else 0
  }

  lemma {:induction false} CountAppend(p: Packet, a: seq<Packet>, b: seq<Packet>)
    ensures CountOf(p, a + b) == CountOf(p, a) + CountOf(p, b)
  {
    if b == [] {
      assert a + b == a;
    } else {
      CountAppend(p, a, b[..|b| - 1]);
      assert (a + b)[..|a + b| - 1] == a + b[..|b| - 1];
    }
  }

  lemma CountOne(p: Packet, q: Packet)
    ensures CountOf(p, [q]) == if q == p then 1 else 0
  {
    var none: seq<Packet> := [];
    assert [q][..0] == none && CountOf(p, none) == 0;
  }

  lemma {:induction false} ProbesSince(e: End, script: seq<Wake>)
    requires e.tid < TID_LIMIT
    ensures AfterAll(e, script).tid == e.tid
    ensures e.probesSent + CountOf(Probe(e.tid), SendsAll(e, script)) == AfterAll(e, script).probesSent
  {
    if script != [] {
      var before, last := script[..|script| - 1], script[|script| - 1];
      ProbesSince(e, before);
      CountAppend(Probe(e.tid), SendsAll(e, before), Sends(AfterAll(e, before), last));
      OneTurnProbes(AfterAll(e, before), last);
    }
  }

  /** A turn sends a probe exactly when it counts one; an acknowledgement is no probe. */
  lemma OneTurnProbes(e: End, w: Wake)
    requires e.tid < TID_LIMIT
    ensures After(e, w).tid == e.tid
    ensures After(e, w).probesSent == e.probesSent + CountOf(Probe(e.tid), Sends(e, w))
  {
    assert CountOf(Probe(e.tid), []) == 0;
    if Sends(e, w) != [] {
      var p := Sends(e, w)[0];
      CountOne(Probe(e.tid), p);
      assert Sends(e, w) == [p];
      AckOf(e.tid);
      if w.event.Recv? {
        TidIsInRange(w.event.data, PUNCH_PROBE);
        AckOf(Tid(w.event.data, PUNCH_PROBE).value);
      }
    }
  }

  /** The packets a call has sent hold as many probes as it has counted. */
  lemma ProbesAreSent(listen: bool, tid: nat, start: nat, script: seq<Wake>)
    requires tid < TID_LIMIT
    ensures var e := Start(listen, tid, start);
            CountOf(Probe(tid), [Probe(tid)] + SendsAll(e, script)) == AfterAll(e, script).probesSent
  {
    var e := Start(listen, tid, start);
    ProbesSince(e, script);
    CountAppend(Probe(tid), [Probe(tid)], SendsAll(e, script));
    CountOne(Probe(tid), Probe(tid));
  }

  /** What a datagram does to a looping end: only the answer to its own probe confirms a connector, only
      what is no punch packet is handed out, and everything else, an empty datagram or the answer to
      someone else's probe among it, leaves it looping. */
  lemma DatagramDecides(e: End, now: nat, data: Packet)
    requires e.phase.Punching? && e.tid < TID_LIMIT
    ensures var e' := After(e, Wake(now, Recv(data)));
            && (e'.phase == Confirmed <==> !e.listen && data == Ack(e.tid))
            && (e'.phase == Received(data) <==>
                  data != [] && forall t: nat | t < TID_LIMIT :: data != Ack(t) && data != Probe(t))
            && (e'.phase.Confirmed? || e'.phase == Received(data) || e'.phase.Punching?)
            && (e'.acked <==> e.acked || (e.listen && data == Ack(e.tid)))
            && e'.probesSeen == e.probesSeen + |Sends(e, Wake(now, Recv(data)))|
    // Exactly the peer's probes are answered, each with its own transaction id.
    ensures forall t: nat | t < TID_LIMIT ::
              Sends(e, Wake(now, Recv(data))) == [Ack(t)] <==> data == Probe(t)
  {
    TidInvertsEncode(data, PUNCH_ACK, e.tid);
    if Tid(data, PUNCH_ACK).Some? {
      TidIsInRange(data, PUNCH_ACK);
      TidInvertsEncode(data, PUNCH_ACK, Tid(data, PUNCH_ACK).value);
    }
    if Tid(data, PUNCH_PROBE).Some? {
      TidIsInRange(data, PUNCH_PROBE);
      TidInvertsEncode(data, PUNCH_PROBE, Tid(data, PUNCH_PROBE).value);
      AckOf(Tid(data, PUNCH_PROBE).value);
    }
    forall t: nat | t < TID_LIMIT
      ensures data == Ack(t) ==> Tid(data, PUNCH_ACK) == Some(t)
      ensures data == Probe(t) ==> Tid(data, PUNCH_PROBE) == Some(t) && Tid(data, PUNCH_ACK) == None
      ensures Sends(e, Wake(now, Recv(data))) == [Ack(t)] <==> data == Probe(t)
    {
      AckOf(t);
    }
  }

  /** Once the loop has returned, later wake-ups change and send nothing. */
  lemma {:induction false} StoppedStays(e: End, script: seq<Wake>, i: nat)
    requires i <= |script| && (i < |script| ==> !AfterAll(e, script[..i]).phase.Punching?)
    ensures AfterAll(e, script) == AfterAll(e, script[..i])
    ensures SendsAll(e, script) == SendsAll(e, script[..i])
    decreases |script| - i
  {
    if i < |script| {
      assert script[..i + 1][..i] == script[..i];
      StoppedStays(e, script, i + 1);
    } else {
      assert script[..i] == script;
    }
  }

  // ---------------------------------------------------------------------------------------------
  // Two ends and the network between them

  /** `to...` are the packets in flight, `sentTo...` every packet ever sent that way, and `heardBy...`
      every packet delivered to an end while it was looping. */
  datatype World = World(
    connector: End, listener: End, now: nat,
    toListener: set<Packet>, toConnector: set<Packet>,
    sentToListener: set<Packet>, sentToConnector: set<Packet>,
    heardByListener: set<Packet>, heardByConnector: set<Packet>) {

    function SendToListener(packets: set<Packet>): World {
      this.(toListener := toListener + packets, sentToListener := sentToListener + packets)
    }

    function SendToConnector(packets: set<Packet>): World {
      this.(toConnector := toConnector + packets, sentToConnector := sentToConnector + packets)
    }
  }

  /** Each end starts when it likes; the comments only promise that they do so close together. */
  datatype Action =
    | ConnectorStarts
    | ListenerStarts
    | ConnectorWakes(event: Event)
    | ListenerWakes(event: Event)
    | ConnectorSpeaks(data: Packet)  // KCP, after the punch
    | ListenerSpeaks(data: Packet)
    | Lose(toListener: set<Packet>, toConnector: set<Packet>)
    | Clock(to: nat)

  predicate Succeeded(e: End) {
    e.phase.Confirmed? || e.phase.Received?
  }

  /** A KCP datagram: longer than a punch packet, since its header alone is. */
  predicate IsData(p: Packet) {
    |p| > PUNCH_PACKET_LEN
  }

  predicate Possible(w: World, a: Action) {
    match a
    case ConnectorStarts => w.connector.phase.Waiting?
    case ListenerStarts => w.listener.phase.Waiting?
    case ConnectorWakes(event) => event.Recv? ==> event.data in w.toConnector
    case ListenerWakes(event) => event.Recv? ==> event.data in w.toListener
    case ConnectorSpeaks(data) => Succeeded(w.connector) && IsData(data)
    case ListenerSpeaks(data) => Succeeded(w.listener) && IsData(data)
    case Lose(_, _) => true
    case Clock(to) => to >= w.now
  }

  function Heard(e: End, event: Event): set<Packet> {
    if e.phase.Punching? && event.Recv? then {event.data} else {}
  }

  function Set(s: seq<Packet>): set<Packet> {
    set p | p in s
  }

  function Do(w: World, a: Action): World {
    match a
    case ConnectorStarts =>
      w.(connector := Start(w.connector.listen, w.connector.tid, w.now)).SendToListener({Probe(w.connector.tid)})
    case ListenerStarts =>
      w.(listener := Start(w.listener.listen, w.listener.tid, w.now)).SendToConnector({Probe(w.listener.tid)})
    case ConnectorWakes(event) =>
      w.(connector := After(w.connector, Wake(w.now, event)),
         heardByConnector := w.heardByConnector + Heard(w.connector, event))
       .SendToListener(Set(Sends(w.connector, Wake(w.now, event))))
    case ListenerWakes(event) =>
      w.(listener := After(w.listener, Wake(w.now, event)),
         heardByListener := w.heardByListener + Heard(w.listener, event))
       .SendToConnector(Set(Sends(w.listener, Wake(w.now, event))))
    case ConnectorSpeaks(data) => w.SendToListener({data})
    case ListenerSpeaks(data) => w.SendToConnector({data})
    case Lose(toListener, toConnector) =>
      w.(toListener := w.toListener - toListener, toConnector := w.toConnector - toConnector)
    case Clock(to) => w.(now := to)
  }

  function Begin(connectorTid: nat, listenerTid: nat, listens: bool, now: nat): World {
    World(Idle(false, connectorTid), Idle(listens, listenerTid), now, {}, {}, {}, {}, {}, {})
  }

  predicate Leads(w: World, a: Action, w': World) {
    Possible(w, a) && w' == Do(w, a)
  }

  predicate IsRun(worlds: seq<World>, actions: seq<Action>) {
    && |worlds| == |actions| + 1
    && forall i | 0 <= i < |actions| :: Leads(worlds[i], actions[i], worlds[i + 1])
  }

  // ---------------------------------------------------------------------------------------------
  // What every run keeps

  /** Every packet was sent for a reason: a probe, an answer to a probe that was heard, or data of an end
      that had succeeded. */
  predicate Accounted(sender: End, heard: set<Packet>, p: Packet) {
    || p == Probe(sender.tid)
    || (Tid(p, PUNCH_ACK).Some? && Probe(Tid(p, PUNCH_ACK).value) in heard)
    || (IsData(p) && Succeeded(sender))
  }

  ghost predicate Inv(w: World) {
    && !w.connector.listen && w.listener.listen
    && w.connector.tid < TID_LIMIT && w.listener.tid < TID_LIMIT
    && w.toListener <= w.sentToListener && w.toConnector <= w.sentToConnector
    && w.heardByListener <= w.sentToListener && w.heardByConnector <= w.sentToConnector
    && (forall p | p in w.sentToConnector :: Accounted(w.listener, w.heardByListener, p))
    && (forall p | p in w.sentToListener :: Accounted(w.connector, w.heardByConnector, p))
    && !w.listener.phase.Confirmed?
    && !w.connector.phase.Received?
    && (w.listener.phase.Received? ==> w.connector.phase.Confirmed?)
    && (w.connector.phase.Confirmed? ==> Ack(w.connector.tid) in w.sentToConnector)
    && (w.listener.acked ==> Ack(w.listener.tid) in w.sentToListener)
    && (w.connector.phase.TimedOut? ==> w.now >= w.connector.deadline)
    && (w.listener.phase.TimedOut? ==> w.now >= w.listener.deadline)
  }

  lemma AckOf(tid: nat)
    requires tid < TID_LIMIT
    ensures Tid(Ack(tid), PUNCH_ACK) == Some(tid)
    ensures Tid(Probe(tid), PUNCH_PROBE) == Some(tid)
    ensures Tid(Probe(tid), PUNCH_ACK) == None
  {
    TidInvertsEncode(Ack(tid), PUNCH_ACK, tid);
    TidInvertsEncode(Probe(tid), PUNCH_PROBE, tid);
    ProbeIsNotAck(Probe(tid));
  }

  /** What an end sends is accounted for by what it has heard, including the packet it answers. */
  lemma SendsAccounted(e: End, w: Wake, heard: set<Packet>, p: Packet)
    requires e.tid < TID_LIMIT && p in Sends(e, w)
    ensures Accounted(e, heard + Heard(e, w.event), p)
  {
    if w.event.Recv? {
      TidIsInRange(w.event.data, PUNCH_PROBE);
      AckOf(Tid(w.event.data, PUNCH_PROBE).value);
    }
  }

  lemma ConnectorKeepsInv(w: World, event: Event)
    requires Inv(w) && Possible(w, ConnectorWakes(event))
    ensures Inv(Do(w, ConnectorWakes(event)))
  {
    var w' := Do(w, ConnectorWakes(event));
    var wake := Wake(w.now, event);
    forall p | p in w'.sentToListener
      ensures Accounted(w'.connector, w'.heardByConnector, p)
    {
      if p in Sends(w.connector, wake) {
        SendsAccounted(w.connector, wake, w.heardByConnector, p);
      } else {
        assert Accounted(w.connector, w.heardByConnector, p);
      }
    }
    if event.Recv? && w.connector.phase.Punching? {
      assert Accounted(w.listener, w.heardByListener, event.data);
      AckOf(w.listener.tid);
      AckOf(w.connector.tid);
      if Tid(event.data, PUNCH_ACK) == Some(w.connector.tid) {
        TidInvertsEncode(event.data, PUNCH_ACK, w.connector.tid);
      }
    }
  }

  lemma ListenerKeepsInv(w: World, event: Event)
    requires Inv(w) && Possible(w, ListenerWakes(event))
    ensures Inv(Do(w, ListenerWakes(event)))
  {
    var w' := Do(w, ListenerWakes(event));
    var wake := Wake(w.now, event);
    forall p | p in w'.sentToConnector
      ensures Accounted(w'.listener, w'.heardByListener, p)
    {
      if p in Sends(w.listener, wake) {
        SendsAccounted(w.listener, wake, w.heardByListener, p);
      } else {
        assert Accounted(w.listener, w.heardByListener, p);
      }
    }
    if event.Recv? && w.listener.phase.Punching? {
      assert Accounted(w.connector, w.heardByConnector, event.data);
      AckOf(w.listener.tid);
      AckOf(w.connector.tid);
      if Tid(event.data, PUNCH_ACK) == Some(w.listener.tid) {
        TidInvertsEncode(event.data, PUNCH_ACK, w.listener.tid);
      }
    }
  }

  lemma SpeakingKeepsInv(w: World, a: Action)
    requires Inv(w) && Possible(w, a) && !a.ConnectorWakes? && !a.ListenerWakes?
    ensures Inv(Do(w, a))
  {
    var w' := Do(w, a);
    forall p | p in w'.sentToConnector
      ensures Accounted(w'.listener, w'.heardByListener, p)
    {
      assert p in w.sentToConnector ==> Accounted(w.listener, w.heardByListener, p);
    }
    forall p | p in w'.sentToListener
      ensures Accounted(w'.connector, w'.heardByConnector, p)
    {
      assert p in w.sentToListener ==> Accounted(w.connector, w.heardByConnector, p);
    }
  }

  lemma StepKeepsInv(w: World, a: Action, w': World)
    requires Inv(w) && Leads(w, a, w')
    ensures Inv(w')
  {
    match a
    case ConnectorWakes(event) => ConnectorKeepsInv(w, event);
    case ListenerWakes(event) => ListenerKeepsInv(w, event);
    case _ => SpeakingKeepsInv(w, a);
  }

  lemma {:induction false} RunKeepsInv(worlds: seq<World>, actions: seq<Action>, n: nat)
    requires IsRun(worlds, actions) && Inv(worlds[0]) && n < |worlds|
    ensures Inv(worlds[n])
  {
    if n > 0 {
      RunKeepsInv(worlds, actions, n - 1);
      StepKeepsInv(worlds[n - 1], actions[n - 1], worlds[n]);
    }
  }

  predicate Starts(worlds: seq<World>) {
    && |worlds| > 0
    && worlds[0] == Begin(worlds[0].connector.tid, worlds[0].listener.tid, true, worlds[0].now)
    && worlds[0].connector.tid < TID_LIMIT && worlds[0].listener.tid < TID_LIMIT
  }

  /** A connector that returns success had its own probe received by the listener and acknowledged. */
  lemma SuccessIsAFact(worlds: seq<World>, actions: seq<Action>, n: nat)
    requires Starts(worlds) && IsRun(worlds, actions) && n < |worlds|
    ensures Succeeded(worlds[n].connector) ==>
              && worlds[n].connector.phase.Confirmed?
              && Probe(worlds[n].connector.tid) in worlds[n].heardByListener
              && Ack(worlds[n].connector.tid) in worlds[n].sentToConnector
  {
    RunKeepsInv(worlds, actions, n);
    var w := worlds[n];
    if Succeeded(w.connector) {
      AckOf(w.connector.tid);
      AckOf(w.listener.tid);
      assert Accounted(w.listener, w.heardByListener, Ack(w.connector.tid));
    }
  }

  /** The listener succeeds only after the connector has, and on a datagram the connector sent. */
  lemma ListenerSucceedsSecond(worlds: seq<World>, actions: seq<Action>, n: nat)
    requires Starts(worlds) && IsRun(worlds, actions) && n < |worlds|
    ensures Succeeded(worlds[n].listener) ==> worlds[n].listener.phase.Received? && worlds[n].connector.phase.Confirmed?
  {
    RunKeepsInv(worlds, actions, n);
  }

  /** While the connector is probing, a listener that has started is in its loop until its own
      deadline, however much later than the connector it started, and answers. */
  lemma ListenerStillAnswers(worlds: seq<World>, actions: seq<Action>, n: nat)
    requires Starts(worlds) && IsRun(worlds, actions) && n < |worlds|
    requires worlds[n].connector.phase.Punching?
    requires !worlds[n].listener.phase.Waiting? && worlds[n].now < worlds[n].listener.deadline
    ensures var w := worlds[n];
            && w.listener.phase.Punching?
            && Ack(w.connector.tid) in Do(w, ListenerWakes(Recv(Probe(w.connector.tid)))).toConnector
            && (Probe(w.connector.tid) in w.toListener <==> Possible(w, ListenerWakes(Recv(Probe(w.connector.tid)))))
  {
    RunKeepsInv(worlds, actions, n);
    var w := worlds[n];
    AckOf(w.connector.tid);
    assert Tid(Probe(w.connector.tid), PUNCH_ACK) != Some(w.listener.tid);
    assert Ack(w.connector.tid) in Sends(w.listener, Wake(w.now, Recv(Probe(w.connector.tid))));
  }

  /** From any point of any run where both ends still loop and a probe of the connector is in flight, four
      deliveries complete the punch. */
  lemma CanStillComplete(w: World, data: Packet) returns (worlds: seq<World>, actions: seq<Action>)
    requires Inv(w) && w.connector.phase.Punching? && w.listener.phase.Punching? && IsData(data)
    requires Probe(w.connector.tid) in w.toListener
    ensures IsRun(worlds, actions) && worlds[0] == w && |actions| == 4 && worlds[4].now == w.now
    ensures worlds[4].connector.phase.Confirmed? && worlds[4].listener.phase == Received(data)
  {
    var c := w.connector.tid;
    AckOf(c);
    assert Ack(c) in Sends(w.listener, Wake(w.now, Recv(Probe(c))));
    var a1 := ListenerWakes(Recv(Probe(c)));
    var w1 := Do(w, a1);
    var a2 := ConnectorWakes(Recv(Ack(c)));
    var w2 := Do(w1, a2);
    var a3 := ConnectorSpeaks(data);
    var w3 := Do(w2, a3);
    var a4 := ListenerWakes(Recv(data));
    var w4 := Do(w3, a4);
    worlds, actions := [w, w1, w2, w3, w4], [a1, a2, a3, a4];
  }

  function Later(a: nat, b: nat): nat {
    if a < b then b else a
  }

  /** What retransmission is for: after everything in flight is lost, the connector's next due probe puts
      one back, still with both ends looping. */
  lemma ProbeIsRepeated(w: World) returns (worlds: seq<World>, actions: seq<Action>)
    requires Inv(w) && w.connector.phase.Punching? && w.listener.phase.Punching?
    ensures |worlds| == 4 && IsRun(worlds, actions) && worlds[0] == w
    ensures actions == [Lose(w.toListener, w.toConnector), Clock(Later(w.now, w.connector.nextProbe)), ConnectorWakes(Retransmit)]
    ensures worlds[1].toListener == {} && worlds[1].toConnector == {}
    ensures var w' := worlds[3];
            && w'.connector.phase.Punching? && w'.listener.phase.Punching? && w'.connector.tid == w.connector.tid
            && w'.toListener == {Probe(w.connector.tid)} && w'.now == Later(w.now, w.connector.nextProbe)
  {
    var w1 := Do(w, Lose(w.toListener, w.toConnector));
    var w2 := Do(w1, Clock(Later(w.now, w.connector.nextProbe)));
    var w3 := Do(w2, ConnectorWakes(Retransmit));
    assert Sends(w2.connector, Wake(w2.now, Retransmit)) == [Probe(w.connector.tid)];
    worlds := [w, w1, w2, w3];
    actions := [Lose(w.toListener, w.toConnector), Clock(Later(w.now, w.connector.nextProbe)), ConnectorWakes(Retransmit)];
  }

  lemma RunsJoin(worlds: seq<World>, actions: seq<Action>, worlds': seq<World>, actions': seq<Action>)
    requires IsRun(worlds, actions) && IsRun(worlds', actions') && worlds[|actions|] == worlds'[0]
    ensures IsRun(worlds + worlds'[1..], actions + actions')
  {
    var all, acts := worlds + worlds'[1..], actions + actions';
    forall i | 0 <= i < |acts|
      ensures Leads(all[i], acts[i], all[i + 1])
    {
      if i < |actions| {
        assert Leads(worlds[i], actions[i], worlds[i + 1]);
      } else {
        var j := i - |actions|;
        assert Leads(worlds'[j], actions'[j], worlds'[j + 1]);
      }
    }
  }

  /** No loss can spoil a punch while both ends loop: even if everything in flight is lost, the next due
      retransmission and four deliveries complete it, at the instant that retransmission is due. */
  lemma LossIsRepaired(w: World, data: Packet) returns (worlds: seq<World>, actions: seq<Action>)
    requires Inv(w) && w.connector.phase.Punching? && w.listener.phase.Punching? && IsData(data)
    ensures IsRun(worlds, actions) && |actions| == 7 && worlds[0] == w
    ensures worlds[1].toListener == {} && worlds[1].toConnector == {}
    ensures worlds[7].connector.phase.Confirmed? && worlds[7].listener.phase == Received(data)
    ensures worlds[7].now == Later(w.now, w.connector.nextProbe)
  {
    var first, acts := ProbeIsRepeated(w);
    RunKeepsInv(first, acts, 3);
    var second, acts' := CanStillComplete(first[3], data);
    RunsJoin(first, acts, second, acts');
    worlds, actions := first + second[1..], acts + acts';
  }

  /** Why only the connector stops on its own acknowledgement: if both ends did, the second could
      leave its loop while the first is still probing and nobody answers any more. */
  lemma StoppingBothGoesMute(c: nat, l: nat) returns (worlds: seq<World>, actions: seq<Action>)
    requires c < TID_LIMIT && l < TID_LIMIT
    ensures IsRun(worlds, actions) && worlds[0] == Begin(c, l, false, 0)
    ensures var w := worlds[|actions|];
            && w.connector.phase.Punching? && w.listener.phase.Confirmed?
            && w.now < w.listener.deadline
            && Sends(w.listener, Wake(w.now, Recv(Probe(c)))) == []
  {
    AckOf(l);
    var w := Begin(c, l, false, 0);
    var w1 := Do(w, ConnectorStarts);
    var w2 := Do(w1, ListenerStarts);
    var hear := ConnectorWakes(Recv(Probe(l)));
    assert Ack(l) in Sends(w2.connector, Wake(0, Recv(Probe(l))));
    var w3 := Do(w2, hear);
    var stop := ListenerWakes(Recv(Ack(l)));
    var w4 := Do(w3, stop);
    worlds, actions := [w, w1, w2, w3, w4], [ConnectorStarts, ListenerStarts, hear, stop];
  }

  // ---------------------------------------------------------------------------------------------
  // Timers

  /** The interval after `k` retransmissions, and the earliest instant of the `k`-th one. */
  function Interval(k: nat): nat {
    if k == 0 then FIRST_INTERVAL else Slower(Interval(k - 1))
  }

  function Earliest(k: nat): nat {
    if k == 0 then 0 else Earliest(k - 1) + Interval(k - 1)
  }

  /** The wake-ups that are the end's own: everything the socket brings is left out. */
  function Quiet(script: seq<Wake>): seq<Wake> {
    if script == [] then []
    else
      var last := script[|script| - 1];
      Quiet(script[..|script| - 1]) + if last.event.Recv? || last.event.RecvError? then [] else [last]
  }

  predicate SameTimers(a: End, b: End) {
    a.deadline == b.deadline && a.nextProbe == b.nextProbe && a.retryInterval == b.retryInterval && a.probesSent == b.probesSent
  }

  /** Whatever the peer sends, as long as the punch is not decided its deadline, its probes and their
      schedule are those of an end that hears nothing. */
  lemma {:induction false} TimersAreAbsolute(e: End, script: seq<Wake>)
    requires AfterAll(e, script).phase.Punching?
    ensures AfterAll(e, Quiet(script)).phase.Punching?
    ensures SameTimers(AfterAll(e, script), AfterAll(e, Quiet(script)))
  {
    if script != [] {
      var before, last := script[..|script| - 1], script[|script| - 1];
      var heard, deaf := AfterAll(e, before), AfterAll(e, Quiet(before));
      TimersAreAbsolute(e, before);
      TimerStep(heard, deaf, last);
      if !last.event.Recv? && !last.event.RecvError? {
        AfterSnoc(e, Quiet(before), last);
        assert Quiet(script) == Quiet(before) + [last];
      } else {
        assert Quiet(script) == Quiet(before);
      }
    }
  }

  lemma AfterSnoc(e: End, script: seq<Wake>, w: Wake)
    ensures AfterAll(e, script + [w]) == After(AfterAll(e, script), w)
  {
    assert (script + [w])[..|script|] == script;
  }

  lemma TimerStep(a: End, b: End, w: Wake)
    requires a.phase.Punching? && b.phase.Punching? && SameTimers(a, b) && After(a, w).phase.Punching?
    ensures !w.event.Recv? && !w.event.RecvError? ==> After(b, w).phase.Punching? && SameTimers(After(a, w), After(b, w))
    ensures w.event.Recv? || w.event.RecvError? ==> SameTimers(After(a, w), b)
  {}

  /** So a peer that keeps the socket busy cannot put the deadline off. */
  lemma {:induction false} DeadlineEndsTheLoop(listen: bool, tid: nat, start: nat, script: seq<Wake>, i: nat)
    requires i < |script| && script[i].event.Deadline? && script[i].now >= start + MAX_TIME
    ensures !AfterAll(Start(listen, tid, start), script).phase.Punching?
  {
    var before := script[..|script| - 1];
    if i < |script| - 1 {
      DeadlineEndsTheLoop(listen, tid, start, before, i);
    } else {
      ScheduleFrom(listen, tid, start, before);
    }
  }

  /** The intervals lengthen with every probe, so probes cannot come faster than this. */
  predicate OnSchedule(e: End, start: nat) {
    && e.deadline == start + MAX_TIME
    && e.probesSent >= 1
    && e.retryInterval == Interval(e.probesSent - 1)
    && e.nextProbe >= start + Earliest(e.probesSent)
  }

  lemma StaysOnSchedule(e: End, w: Wake, start: nat)
    requires OnSchedule(e, start)
    ensures OnSchedule(After(e, w), start)
  {
    if w.event.Retransmit? {
      assert Interval(e.probesSent) == Slower(e.retryInterval);
      assert Earliest(e.probesSent + 1) == Earliest(e.probesSent) + Interval(e.probesSent);
    }
  }

  lemma {:induction false} ScheduleFrom(listen: bool, tid: nat, start: nat, script: seq<Wake>)
    ensures OnSchedule(AfterAll(Start(listen, tid, start), script), start)
  {
    if script != [] {
      var before := script[..|script| - 1];
      ScheduleFrom(listen, tid, start, before);
      StaysOnSchedule(AfterAll(Start(listen, tid, start), before), script[|script| - 1], start);
    } else {
      assert Earliest(1) == Interval(0) == FIRST_INTERVAL;
    }
  }

  lemma {:induction false} ProbeTimes(listen: bool, tid: nat, start: nat, script: seq<Wake>)
    requires forall i | 0 <= i < |script| :: script[i].now < start + MAX_TIME
    ensures var sent := AfterAll(Start(listen, tid, start), script).probesSent; sent >= 1 && Earliest(sent - 1) < MAX_TIME
  {
    if script != [] {
      var before := script[..|script| - 1];
      ScheduleFrom(listen, tid, start, before);
      ProbeTimes(listen, tid, start, before);
    }
  }

  lemma {:induction false} EarliestGrows(k: nat)
    requires k >= 6
    ensures Interval(k) == MAX_INTERVAL
    ensures Earliest(k) == 415_625 + (k - 6) * MAX_INTERVAL
  {
    if k == 6 {
      assert Interval(1) == 30_000 && Interval(2) == 45_000 && Interval(3) == 67_500;
      assert Interval(4) == 101_250 && Interval(5) == 151_875;
      assert Earliest(2) == 50_000 && Earliest(4) == 162_500;
    } else {
      EarliestGrows(k - 1);
    }
  }

  /** Whatever arrives, an end sends at most nineteen probes before its deadline. */
  lemma AtMostNineteenProbes(listen: bool, tid: nat, start: nat, script: seq<Wake>)
    requires forall i | 0 <= i < |script| :: script[i].now < start + MAX_TIME
    ensures 1 <= AfterAll(Start(listen, tid, start), script).probesSent <= 19
  {
    ProbeTimes(listen, tid, start, script);
    var k := AfterAll(Start(listen, tid, start), script).probesSent - 1;
    if k >= 19 {
      TooLate(k);
      assert false;
    }
  }

  lemma TooLate(k: nat)
    requires k >= 19
    ensures Earliest(k) >= MAX_TIME
  {
    EarliestGrows(k);
  }

  /** Wake-ups of the timer, each at the earliest instant. */
  function Punctual(start: nat, k: nat): (script: seq<Wake>)
    ensures |script| == k && forall i | 0 <= i < k :: script[i] == Wake(start + Earliest(i + 1), Retransmit)
  {
    if k == 0 then [] else Punctual(start, k - 1) + [Wake(start + Earliest(k), Retransmit)]
  }

  lemma {:induction false} PunctualEnd(listen: bool, tid: nat, start: nat, k: nat)
    ensures var e := AfterAll(Start(listen, tid, start), Punctual(start, k));
            && e.phase.Punching? && e.probesSent == k + 1
            && e.retryInterval == Interval(k) && e.nextProbe == start + Earliest(k + 1)
  {
    if k > 0 {
      PunctualEnd(listen, tid, start, k - 1);
      AfterSnoc(Start(listen, tid, start), Punctual(start, k - 1), Wake(start + Earliest(k), Retransmit));
    } else {
      assert Earliest(1) == Interval(0) == FIRST_INTERVAL;
    }
  }

  lemma {:induction false} EarliestMonotone(i: nat, k: nat)
    requires i <= k
    ensures Earliest(i) <= Earliest(k)
  {
    if i < k {
      EarliestMonotone(i, k - 1);
    }
  }

  /** An end whose timer fires on time does send nineteen probes before its deadline. */
  lemma NineteenProbesAreReached(listen: bool, tid: nat, start: nat)
    ensures AfterAll(Start(listen, tid, start), Punctual(start, 18)).probesSent == 19
    ensures forall i | 0 <= i < 18 :: Punctual(start, 18)[i].now < start + MAX_TIME
  {
    PunctualEnd(listen, tid, start, 18);
    EarliestGrows(18);
    forall i | 0 <= i < 18
      ensures Punctual(start, 18)[i].now < start + MAX_TIME
    {
      EarliestMonotone(i + 1, 18);
    }
  }
}
