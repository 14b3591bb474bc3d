/**
  `race_transports_prefer_webrtc`: a WebRTC attempt raced against the other transports.

  The environment is a schedule of wake-ups: an attempt completing, or the clock being looked at for
  the window timer. `Race` is the select loop with the source's local variables. Its contract speaks
  only about the schedule it was run on, so it states what the race promises in every run.
*/
module TransportRace {
  import opened Prelude

  datatype Outcome<+T, +E> = Ok(conn: T) | Err(error: E)

  datatype Event<+T, +E> =
    | WebrtcDone(outcome: Outcome<T, E>)
    | OtherDone(id: nat, outcome: Outcome<T, E>)
    | Tick  // the task is polled and only the timer may be due

  datatype Wake<+T, +E> = At(time: nat, event: Event<T, E>)

  datatype Verdict<+T, +E> =
    | Racing                  // the schedule ended before the race did
    | Won(conn: T)
    | Lost(error: E)
    | WebrtcFailed(error: E)  // the bail that reports a WebRTC failure on its own

  type Schedule<T, E> = seq<Wake<T, E>>

  // ---------------------------------------------------------------------------------------------
  // What a schedule says, independently of the race

  predicate Completes<T, E>(w: Wake<T, E>) {
    !w.event.Tick?
  }

  predicate Succeeds<T, E>(w: Wake<T, E>) {
    !w.event.Tick? && w.event.outcome.Ok?
  }

  predicate SucceedsDirect<T, E>(w: Wake<T, E>, isP2p: T -> bool) {
    Succeeds(w) && isP2p(w.event.outcome.conn)
  }

  /** The other attempts still running after the first `n` wake-ups. */
  function OthersLive<T, E>(others: set<nat>, s: Schedule<T, E>, n: nat): set<nat>
    requires n <= |s|
  {
    if n == 0 then others
    else
      var before := OthersLive(others, s, n - 1);
      if s[n - 1].event.OtherDone? then before - {s[n - 1].event.id} else before
  }

  predicate WebrtcLive<T, E>(s: Schedule<T, E>, n: nat)
    requires n <= |s|
  {
    forall i | 0 <= i < n :: !s[i].event.WebrtcDone?
  }

  predicate NothingLive<T, E>(others: set<nat>, s: Schedule<T, E>, n: nat)
    requires n <= |s|
  {
    OthersLive(others, s, n) == {} && !WebrtcLive(s, n)
  }

  /** Every attempt completes at most once, and only attempts that were started do. */
  ghost predicate Legal<T, E>(others: set<nat>, s: Schedule<T, E>) {
    forall i | 0 <= i < |s| ::
      && (s[i].event.WebrtcDone? ==> WebrtcLive(s, i))
      && (s[i].event.OtherDone? ==> s[i].event.id in OthersLive(others, s, i))
  }

  ghost predicate NoneSucceeded<T, E>(s: Schedule<T, E>, n: nat)
    requires n <= |s|
  {
    forall i | 0 <= i < n :: !Succeeds(s[i])
  }

  /** Wake-up `h` is the first success among the first `n`. */
  ghost predicate FirstSuccess<T, E>(s: Schedule<T, E>, n: nat, h: nat)
    requires n <= |s|
  {
    h < n && Succeeds(s[h]) && NoneSucceeded(s, h)
  }

  /** The timer is due at the last of the first `n` wake-ups: a full window after the first success. */
  ghost predicate WindowElapsed<T, E>(s: Schedule<T, E>, n: nat, h: nat, window: nat)
    requires n <= |s|
  {
    FirstSuccess(s, n, h) && s[n - 1].event.Tick? && s[n - 1].time >= s[h].time + window
  }

  ghost predicate TimerDue<T, E>(s: Schedule<T, E>, n: nat, window: nat)
    requires n <= |s|
  {
    exists h: nat :: WindowElapsed(s, n, h, window)
  }

  function Completions<T, E>(s: Schedule<T, E>, n: nat): nat
    requires n <= |s|
  {
    if n == 0 then 0 else Completions(s, n - 1) + if Completes(s[n - 1]) then 1 else 0
  }

  /** Every completion takes one attempt away, so a race sees at most one more than there are others. */
  lemma {:induction false} LiveAttemptsDecrease<T, E>(others: set<nat>, s: Schedule<T, E>, n: nat)
    requires Legal(others, s) && n <= |s|
    ensures Completions(s, n) + |OthersLive(others, s, n)| + (if WebrtcLive(s, n) then 1 else 0) == |others| + 1
  {
    if n > 0 {
      LiveAttemptsDecrease(others, s, n - 1);
      LiveCountdown(others, s, n - 1);
      StillLive(s, n - 1);
    }
  }

  lemma LiveCountdown<T, E>(others: set<nat>, s: Schedule<T, E>, n: nat)
    requires Legal(others, s) && n < |s|
    ensures s[n].event.OtherDone? ==> |OthersLive(others, s, n + 1)| == |OthersLive(others, s, n)| - 1
    ensures !s[n].event.OtherDone? ==> OthersLive(others, s, n + 1) == OthersLive(others, s, n)
  {}

  /** The verdict `r`, given at the last of the first `n` wake-ups, is one the race may give. */
  ghost predicate Justified<T, E>(others: set<nat>, window: nat, isP2p: T -> bool, s: Schedule<T, E>, n: nat, r: Verdict<T, E>)
    requires 0 < n <= |s|
  {
    match r
    case Racing => !SucceedsDirect(s[n - 1], isP2p) && !NothingLive(others, s, n) && !TimerDue(s, n, window)
    case Won(conn) =>
      if Succeeds(s[n - 1]) then
        // A success decides only if it is direct or nothing is left to beat it.
        && conn == s[n - 1].event.outcome.conn
        && (isP2p(conn) || NothingLive(others, s, n))
      else
        // Otherwise the first success was held until nothing was left or its window ran out.
        exists h: nat ::
          && FirstSuccess(s, n, h)
          && conn == s[h].event.outcome.conn
          && (NothingLive(others, s, n) || WindowElapsed(s, n, h, window))
    case Lost(error) =>
      && NothingLive(others, s, n) && NoneSucceeded(s, n)
      && Completes(s[n - 1]) && s[n - 1].event.outcome == Err(error)
    case WebrtcFailed(_) => false
  }

  /** A schedule justifies at most one verdict, so the contract of `Race` leaves it no choice. */
  lemma VerdictIsDetermined<T, E>(others: set<nat>, window: nat, isP2p: T -> bool, s: Schedule<T, E>, n: nat,
                                  r: Verdict<T, E>, r': Verdict<T, E>)
    requires 0 < n <= |s|
    requires Justified(others, window, isP2p, s, n, r) && Justified(others, window, isP2p, s, n, r')
    ensures r == r'
  {
    if r.Won? && r'.Won? && !Succeeds(s[n - 1]) {
      var h: nat :| FirstSuccess(s, n, h) && r.conn == s[h].event.outcome.conn;
      var h': nat :| FirstSuccess(s, n, h') && r'.conn == s[h'].event.outcome.conn;
      assert h == h';
    }
  }

  // ---------------------------------------------------------------------------------------------
  // The select loop

  /** The local variables of the loop. `othersFut` holds the attempts inside the live `select_ok`. */
  datatype Locals<+T, +E> = Locals(
    webrtcFut: bool, othersFut: Option<set<nat>>, held: Option<T>,
    webrtcErr: Option<E>, othersErr: Option<E>, deadline: nat, windowStarted: bool)

  /** What the locals mean after `n` wake-ups without a verdict. */
  ghost predicate Inv<T, E>(others: set<nat>, window: nat, s: Schedule<T, E>, n: nat, v: Locals<T, E>, heldAt: nat)
    requires n <= |s|
  {
    && (v.webrtcFut <==> WebrtcLive(s, n))
    && v.othersFut == (if OthersLive(others, s, n) == {} then None else Some(OthersLive(others, s, n)))
    && (v.webrtcFut || v.othersFut.Some?)
    && (v.held.None? ==> NoneSucceeded(s, n))
    && (v.held.Some? ==>
          && FirstSuccess(s, n, heldAt)
          && v.held.value == s[heldAt].event.outcome.conn
          && v.deadline == s[heldAt].time + window)
    && (v.windowStarted <==> v.held.Some?)
    && (v.othersErr.Some? ==> v.othersFut.None? && v.webrtcFut)
    && (v.webrtcErr.Some? ==> v.othersFut.Some? && !v.webrtcFut)
    && (v.othersFut.None? ==> v.held.Some? || v.othersErr.Some?)
    && (!v.webrtcFut ==> v.held.Some? || v.webrtcErr.Some?)
  }

  lemma StillLive<T, E>(s: Schedule<T, E>, n: nat)
    requires n < |s|
    ensures WebrtcLive(s, n + 1) <==> WebrtcLive(s, n) && !s[n].event.WebrtcDone?
  {}

  /** The arm of `webrtc_fut`. */
  method OnWebrtc<T, E>(ghost others: set<nat>, window: nat, isP2p: T -> bool, ghost s: Schedule<T, E>, ghost n: nat,
                        v: Locals<T, E>, ghost heldAt: nat, time: nat, res: Outcome<T, E>)
    returns (v': Locals<T, E>, r: Verdict<T, E>, ghost heldAt': nat)
    requires Legal(others, s) && n < |s| && s[n] == At(time, WebrtcDone(res)) && Inv(others, window, s, n, v, heldAt)
    ensures Justified(others, window, isP2p, s, n + 1, r)
    ensures r.Racing? ==> Inv(others, window, s, n + 1, v', heldAt') && (v.windowStarted ==> v'.windowStarted && heldAt' == heldAt)
  {
    v', heldAt', r := v.(webrtcFut := false), heldAt, Racing;
    LiveCountdown(others, s, n);
    match res {
      case Ok(conn) =>
        assert Succeeds(s[n]);
        if isP2p(conn) || v'.othersFut.None? {
          r := Won(conn);
        } else if v'.held.None? {
          v' := v'.(held := Some(conn), deadline := time + window, windowStarted := true);
          heldAt' := n;
        }
      case Err(e) =>
        if v'.othersFut.None? && v'.held.Some? {
          r := Won(v'.held.value);
        } else if v'.othersErr.Some? {
          r := Lost(e);
        } else if v'.othersFut.None? {
          r := WebrtcFailed(e);
        } else {
          v' := v'.(webrtcErr := Some(e));
        }
    }
  }

  /** The arm of `others_fut`, and the failures its `select_ok` absorbs. */
  method OnOther<T, E>(ghost others: set<nat>, window: nat, isP2p: T -> bool, ghost s: Schedule<T, E>, ghost n: nat,
                       v: Locals<T, E>, ghost heldAt: nat, time: nat, id: nat, res: Outcome<T, E>)
    returns (v': Locals<T, E>, r: Verdict<T, E>, ghost heldAt': nat)
    requires Legal(others, s) && n < |s| && s[n] == At(time, OtherDone(id, res)) && Inv(others, window, s, n, v, heldAt)
    ensures Justified(others, window, isP2p, s, n + 1, r)
    ensures r.Racing? ==> Inv(others, window, s, n + 1, v', heldAt') && (v.windowStarted ==> v'.windowStarted && heldAt' == heldAt)
  {
    StillLive(s, n);
    var unfinished := v.othersFut.value - {id};
    v', heldAt', r := v.(othersFut := if unfinished == {} then None else Some(unfinished)), heldAt, Racing;
    match res {
      case Ok(conn) =>
        assert Succeeds(s[n]);
        if isP2p(conn) || (!v'.webrtcFut && unfinished == {}) {
          r := Won(conn);
        } else if v'.held.None? {
          v' := v'.(held := Some(conn), deadline := time + window, windowStarted := true);
          heldAt' := n;
        }
      case Err(e) =>
        if unfinished == {} {
          if v'.webrtcErr.Some? || !v'.webrtcFut {
            r := if v'.held.Some? then Won(v'.held.value) else Lost(e);
          } else {
            v' := v'.(othersErr := Some(e));
          }
        }
    }
  }

  /** The arm of the window timer. */
  method OnTick<T, E>(ghost others: set<nat>, ghost window: nat, ghost isP2p: T -> bool, ghost s: Schedule<T, E>, ghost n: nat,
                      v: Locals<T, E>, ghost heldAt: nat, time: nat)
    returns (v': Locals<T, E>, r: Verdict<T, E>, ghost heldAt': nat)
    requires Legal(others, s) && n < |s| && s[n] == At(time, Tick) && Inv(others, window, s, n, v, heldAt)
    ensures Justified(others, window, isP2p, s, n + 1, r)
    ensures r.Racing? ==> Inv(others, window, s, n + 1, v', heldAt') && (v.windowStarted ==> v'.windowStarted && heldAt' == heldAt)
  {
    StillLive(s, n);
    v', heldAt', r := v, heldAt, Racing;
    if v.windowStarted && time >= v.deadline {
      if v.held.Some? {
        assert WindowElapsed(s, n + 1, heldAt, window);
        r := Won(v.held.value);
      } else {
        v' := v.(windowStarted := false);
      }
    }
  }

  /** The race on a whole schedule; `consumed` is how many wake-ups it saw, `windows` how often the
      preference window was started. */
  method Race<T, E>(others: set<nat>, window: nat, isP2p: T -> bool, s: Schedule<T, E>)
    returns (r: Verdict<T, E>, consumed: nat, windows: nat)
    requires others != {} && Legal(others, s)
    ensures consumed <= |s|
    // The verdict is justified, and so was giving none at every earlier wake-up.
    ensures forall n | 0 < n < consumed :: Justified(others, window, isP2p, s, n, Racing)
    ensures consumed > 0 ==> Justified(others, window, isP2p, s, consumed, r)
    ensures r.Racing? ==> consumed == |s|
    ensures consumed == 0 ==> r.Racing?
    // The window is started at most once, so it always measures from the first relayed success.
    ensures windows <= 1
  {
    var v := Locals(true, Some(others), None, None, None, 0, false);
    ghost var heldAt := 0;
    r, consumed, windows := Racing, 0, 0;
    while consumed < |s|
      invariant consumed <= |s| && r.Racing?
      invariant Inv(others, window, s, consumed, v, heldAt)
      invariant forall n | 0 < n <= consumed :: Justified(others, window, isP2p, s, n, Racing)
      invariant windows == if v.windowStarted then 1 else 0
    {
      var w, wasStarted := s[consumed], v.windowStarted;
      match w.event {
        case WebrtcDone(res) =>
          v, r, heldAt := OnWebrtc(others, window, isP2p, s, consumed, v, heldAt, w.time, res);
        case OtherDone(id, res) =>
          v, r, heldAt := OnOther(others, window, isP2p, s, consumed, v, heldAt, w.time, id, res);
        case Tick =>
          v, r, heldAt := OnTick(others, window, isP2p, s, consumed, v, heldAt, w.time);
      }
      consumed := consumed + 1;
      if !r.Racing? {
        return;
      }
      if !wasStarted && v.windowStarted {
        windows := windows + 1;
      }
    }
  }
}
