/** The transport race that prefers a peer-to-peer path.
    Attempt 0 is the WebRTC attempt; attempts 1..others are the other transports, which the
    source wraps in one `select_ok`.  A schedule lists, in order, what the awaiting task
    observes: single attempts completing, and polls of the preference timer. */
module TransportRace {
  import opened Common

  datatype Completion<+T> = Ok(conn: T) | Err(error: string)

  datatype Event<+T> =
    | Completes(attempt: nat, outcome: Completion<T>, at: nat)
    | Timer(at: nat)

  datatype RaceResult<+T> = Connected(conn: T) | Failed(webrtcError: string, fallbackError: string)

  datatype Params<!T> = Params(others: nat, windowMs: nat, isP2P: T -> bool)

  function Init<T>(h: seq<T>): (p: seq<T>)
    requires h != []
  {
    h[..|h| - 1]
  }

  function Last<T>(h: seq<T>): (x: T)
    requires h != []
  {
    h[|h| - 1]
  }

  // ----- what a history says, independently of how the loop keeps track of it

  function Fallbacks(others: nat): (s: set<nat>)
    ensures forall a :: a in s <==> 1 <= a <= others
    ensures |s| == others
  {
    if others == 0 then {} else Fallbacks(others - 1) + {others}
  }

  /** Whether the WebRTC attempt has not completed yet. */
  predicate WebRtcPending<T>(h: seq<Event<T>>) {
    h == [] || (WebRtcPending(Init(h)) && !(Last(h).Completes? && Last(h).attempt == 0))
  }

  /** The other attempts that have not completed yet. */
  function OthersPending<T>(others: nat, h: seq<Event<T>>): (s: set<nat>)
    ensures 0 !in s
  {
    if h == [] then Fallbacks(others)
    else if Last(h).Completes? then OthersPending(others, Init(h)) - {Last(h).attempt}
    else OthersPending(others, Init(h))
  }

  predicate IsPending<T>(others: nat, h: seq<Event<T>>, a: nat) {
    if a == 0 then WebRtcPending(h) else a in OthersPending(others, h)
  }

  /** No attempt is in flight any more. */
  predicate Settled<T>(others: nat, h: seq<Event<T>>) {
    !WebRtcPending(h) && OthersPending(others, h) == {}
  }

  /** Every attempt completes at most once, and time does not go back. */
  predicate Legal<T>(others: nat, h: seq<Event<T>>) {
    h != [] ==>
      && Legal(others, Init(h))
      && (|h| >= 2 ==> Last(Init(h)).at <= Last(h).at)
      && (Last(h).Completes? ==> IsPending(others, Init(h), Last(h).attempt))
  }

  predicate IsDirect<T>(p: Params<T>, e: Event<T>) {
    e.Completes? && e.outcome.Ok? && p.isP2P(e.outcome.conn)
  }

  predicate IsRelayed<T>(p: Params<T>, e: Event<T>) {
    e.Completes? && e.outcome.Ok? && !p.isP2P(e.outcome.conn)
  }

  /** The position of the first relayed success. */
  function FirstRelay<T>(p: Params<T>, h: seq<Event<T>>): (r: Option<nat>)
    ensures r.Some? ==> r.value < |h| && IsRelayed(p, h[r.value])
    ensures r.Some? ==> forall i | 0 <= i < r.value :: !IsRelayed(p, h[i])
    ensures r.None? ==> forall i | 0 <= i < |h| :: !IsRelayed(p, h[i])
  {
    if h == [] then None
    else if FirstRelay(p, Init(h)).Some? then FirstRelay(p, Init(h))
    else if IsRelayed(p, Last(h)) then Some(|h| - 1)
    else None
  }

  /** The most recent error of attempt 0, respectively of the other attempts. */
  function LatestError<T>(webrtc: bool, h: seq<Event<T>>): (r: string) {
    if h == [] then ""
    else if Last(h).Completes? && Last(h).outcome.Err? && (Last(h).attempt == 0) == webrtc
    then Last(h).outcome.error
    else LatestError(webrtc, Init(h))
  }

  ghost predicate WindowOver<T>(p: Params<T>, h: seq<Event<T>>)
    requires h != []
  {
    FirstRelay(p, h).Some? && Last(h).at >= h[FirstRelay(p, h).value].at + p.windowMs
  }

  /** The race is over after `h`: a direct connection arrived, nothing is left in flight, or the
      timer was seen after the window. */
  ghost predicate Decided<T>(p: Params<T>, h: seq<Event<T>>) {
    && h != []
    && (|| IsDirect(p, Last(h))
        || (Last(h).Completes? && Settled(p.others, h))
        || (Last(h).Timer? && WindowOver(p, h)))
  }

  /** The answer, read off the history. */
  ghost function Verdict<T>(p: Params<T>, h: seq<Event<T>>): (r: RaceResult<T>)
    requires Decided(p, h)
  {
    if Last(h).Completes? && Last(h).outcome.Ok? then Connected(Last(h).outcome.conn)
    else if FirstRelay(p, h).Some? then Connected(h[FirstRelay(p, h).value].outcome.conn)
    else Failed(LatestError(true, h), LatestError(false, h))
  }

  /** No proper prefix of `h` already decided the race: `h` is what one run observes. */
  ghost predicate Undecided<T>(p: Params<T>, h: seq<Event<T>>) {
    forall j | 0 <= j < |h| :: !Decided(p, h[..j])
  }

  /** The last event of `h` resolves a branch of the `select!`: `select_ok` passes on a failure only when
      it was the last one it waited for, and the timer rings only after the window. */
  ghost predicate Wakes<T>(p: Params<T>, h: seq<Event<T>>)
    requires h != []
  {
    match Last(h)
    case Timer(_) => WindowOver(p, h)
    case Completes(a, outcome, _) => a == 0 || outcome.Ok? || OthersPending(p.others, h) == {}
  }

  ghost function Wakeups<T>(p: Params<T>, h: seq<Event<T>>): (n: nat) {
    if h == [] then 0 else Wakeups(p, Init(h)) + (if Wakes(p, h) then 1 else 0)
  }

  lemma PrefixStep<T>(s: seq<T>, k: nat)
    requires k < |s|
    ensures s[..k + 1] != [] && Init(s[..k + 1]) == s[..k] && Last(s[..k + 1]) == s[k]
  {
  }

  lemma ExtendUndecided<T>(p: Params<T>, h: seq<Event<T>>)
    requires h != [] && Undecided(p, Init(h)) && !Decided(p, Init(h))
    ensures Undecided(p, h)
  {
    forall j | 0 <= j < |h| ensures !Decided(p, h[..j]) {
      if j < |h| - 1 { assert h[..j] == Init(h)[..j]; }
    }
  }

  lemma {:induction false} LegalPrefix<T>(others: nat, h: seq<Event<T>>, k: nat)
    requires Legal(others, h) && k <= |h|
    ensures Legal(others, h[..k])
  {
    if k == |h| {
      assert h[..k] == h;
    } else {
      LegalPrefix(others, Init(h), k);
      assert h[..k] == Init(h)[..k];
    }
  }

  // ----- the loop

  /** The variables the loop updates; `othersFut` holds the attempts inside `select_ok`. */
  datatype Locals<T> = Locals(
    webrtcFut: bool,
    othersFut: Option<set<nat>>,
    held: Option<T>,
    webrtcErr: Option<string>,
    othersErr: Option<string>,
    windowStarted: bool,
    deadline: nat)

  /** What the loop remembers agrees with the history, and something is still in flight. */
  ghost predicate Tracks<T>(p: Params<T>, h: seq<Event<T>>, v: Locals<T>) {
    var first := FirstRelay(p, h);
    && v.webrtcFut == WebRtcPending(h)
    && (v.othersFut.Some? ==> v.othersFut.value == OthersPending(p.others, h) != {})
    && (v.othersFut.None? ==> OthersPending(p.others, h) == {})
    && (v.webrtcFut || v.othersFut.Some?)
    && (v.held.Some? <==> first.Some?)
    && (v.held.Some? <==> v.windowStarted)
    && (v.held.Some? ==> v.held.value == h[first.value].outcome.conn
                         && v.deadline == h[first.value].at + p.windowMs)
    && (v.webrtcErr.Some? ==> !v.webrtcFut && v.webrtcErr.value == LatestError(true, h))
    && (v.othersErr.Some? ==> v.othersFut.None? && v.othersErr.value == LatestError(false, h))
    && (!v.webrtcFut && v.held.None? ==> v.webrtcErr.Some?)
    && (v.othersFut.None? && v.held.None? ==> v.othersErr.Some?)
  }

  ghost function InFlight<T>(v: Locals<T>): (n: nat) {
    (if v.webrtcFut then 1 else 0) + (if v.othersFut.Some? then |v.othersFut.value| else 0)
  }

  /** Handling the last event of `h` was right: the answer if the race is over, else the new state. */
  ghost predicate Handled<T>(p: Params<T>, h: seq<Event<T>>, v: Locals<T>, r: Option<RaceResult<T>>) {
    && (r.Some? ==> Decided(p, h) && r.value == Verdict(p, h))
    && (r.None? ==> !Decided(p, h) && Tracks(p, h, v))
  }

  /** The branch taken when the WebRTC attempt resolves. */
  method OnWebRtc<T>(p: Params<T>, v: Locals<T>, res: Completion<T>, at: nat, ghost h: seq<Event<T>>)
    returns (v': Locals<T>, r: Option<RaceResult<T>>)
    requires h != [] && Last(h) == Completes(0, res, at)
    requires Legal(p.others, h) && Tracks(p, Init(h), v)
    ensures Handled(p, h, v', r)
    ensures InFlight(v') < InFlight(v)
  {
    v' := v.(webrtcFut := false);
    r := None;
    match res {
      case Ok(conn) =>
        if p.isP2P(conn) || v.othersFut.None? {
          return v', Some(Connected(conn));
        }
        if v.held.None? {
          v' := v'.(held := Some(conn), deadline := at + p.windowMs, windowStarted := true);
        }
      case Err(e) =>
        if v.othersFut.None? && v.held.Some? {
          return v', Some(Connected(v.held.value));
        }
        match v.othersErr {
          case Some(oe) => return v', Some(Failed(e, oe));
          case None =>
            if v.othersFut.None? { assert false; }
            v' := v'.(webrtcErr := Some(e));
        }
    }
  }

  /** The branch of the other attempts, when `select_ok` resolves on its first success and hands
      back the attempts still pending. */
  method OnOtherOk<T>(p: Params<T>, v: Locals<T>, a: nat, conn: T, at: nat, ghost h: seq<Event<T>>)
    returns (v': Locals<T>, r: Option<RaceResult<T>>)
    requires a != 0 && h != [] && Last(h) == Completes(a, Ok(conn), at)
    requires Legal(p.others, h) && Tracks(p, Init(h), v)
    ensures Handled(p, h, v', r)
    ensures InFlight(v') < InFlight(v)
  {
    var unfinished := v.othersFut.value - {a};
    assert unfinished < v.othersFut.value;
    v' := v.(othersFut := None);
    r := None;
    if p.isP2P(conn) {
      return v', Some(Connected(conn));
    }
    if !v.webrtcFut && unfinished == {} {
      return v', Some(Connected(conn));
    }
    if v.held.None? {
      v' := v'.(held := Some(conn), deadline := at + p.windowMs, windowStarted := true);
    }
    if unfinished != {} {
      v' := v'.(othersFut := Some(unfinished));
    }
  }

  /** The same branch for a failing attempt: `select_ok` resolves only on the last one. */
  method OnOtherErr<T>(p: Params<T>, v: Locals<T>, a: nat, e: string, at: nat, ghost h: seq<Event<T>>)
    returns (v': Locals<T>, r: Option<RaceResult<T>>, woke: bool)
    requires a != 0 && h != [] && Last(h) == Completes(a, Err(e), at)
    requires Legal(p.others, h) && Tracks(p, Init(h), v)
    ensures Handled(p, h, v', r)
    ensures woke == Wakes(p, h)
    ensures InFlight(v') < InFlight(v)
  {
    var unfinished := v.othersFut.value - {a};
    assert unfinished < v.othersFut.value;
    r, woke := None, unfinished == {};
    if unfinished != {} {
      v' := v.(othersFut := Some(unfinished));
      return;
    }
    v' := v.(othersFut := None);
    match v.webrtcErr {
      case Some(we) =>
        match v.held {
          case Some(conn) => r := Some(Connected(conn));
          case None => r := Some(Failed(we, e));
        }
      case None =>
        if !v.webrtcFut {
          match v.held {
            case Some(conn) => r := Some(Connected(conn));
            case None => assert false;
          }
        } else {
          v' := v'.(othersErr := Some(e));
        }
    }
  }

  /** The preference timer. */
  method OnTimer<T>(p: Params<T>, v: Locals<T>, at: nat, ghost h: seq<Event<T>>)
    returns (r: Option<RaceResult<T>>)
    requires h != [] && Last(h) == Timer(at) && Tracks(p, Init(h), v)
    ensures Handled(p, h, v, r)
    ensures r.Some? == Wakes(p, h)
  {
    r := None;
    if v.windowStarted && at >= v.deadline {
      if v.held.Some? {
        return Some(Connected(v.held.value));
      }
      assert false;
    }
  }

  /** One turn of the `select!`: whichever branch is ready runs. */
  method Select<T>(p: Params<T>, v: Locals<T>, e: Event<T>, ghost h: seq<Event<T>>)
    returns (v': Locals<T>, r: Option<RaceResult<T>>, woke: bool)
    requires h != [] && Last(h) == e && Legal(p.others, h) && Tracks(p, Init(h), v)
    ensures Handled(p, h, v', r)
    ensures woke == Wakes(p, h)
    ensures woke ==> r.Some? || InFlight(v') < InFlight(v)
    ensures InFlight(v') <= InFlight(v) && InFlight(v) >= 1
  {
    v', woke := v, true;
    match e {
      case Timer(at) =>
        r := OnTimer(p, v, at, h);
        woke := r.Some?;
      case Completes(a, res, at) =>
        if a == 0 {
          v', r := OnWebRtc(p, v, res, at, h);
        } else {
          match res {
            case Ok(conn) => v', r := OnOtherOk(p, v, a, conn, at, h);
            case Err(err) => v', r, woke := OnOtherErr(p, v, a, err, at, h);
          }
        }
    }
  }

  lemma InitialState<T>(p: Params<T>, v: Locals<T>)
    requires p.others >= 1
    requires v == Locals(true, Some(Fallbacks(p.others)), None, None, None, false, 0)
    ensures Handled(p, [], v, None) && InFlight(v) == 1 + p.others
  {
    assert 1 in Fallbacks(p.others);
  }

  /** The race.  `None` means that the schedule ended while the race was still awaiting. */
  method Race<T>(p: Params<T>, schedule: seq<Event<T>>)
    returns (r: Option<RaceResult<T>>, used: nat, wakeups: nat)
    requires p.others >= 1
    requires Legal(p.others, schedule)
    ensures used <= |schedule|
    ensures Undecided(p, schedule[..used])
    ensures r.Some? ==> Decided(p, schedule[..used]) && r.value == Verdict(p, schedule[..used])
    ensures r.None? ==> used == |schedule| && !Decided(p, schedule)
    ensures wakeups == Wakeups(p, schedule[..used]) <= 1 + p.others
  {
    var v := Locals(true, Some(Fallbacks(p.others)), None, None, None, false, 0);
    r, used, wakeups := None, 0, 0;
    InitialState(p, v);
    while used < |schedule| && r.None?
      invariant used <= |schedule|
      invariant Undecided(p, schedule[..used])
      invariant Handled(p, schedule[..used], v, r)
      invariant wakeups == Wakeups(p, schedule[..used])
      invariant wakeups + (if r.None? then InFlight(v) else 0) <= 1 + p.others
      decreases |schedule| - used
    {
      PrefixStep(schedule, used);
      LegalPrefix(p.others, schedule, used + 1);
      ExtendUndecided(p, schedule[..used + 1]);
      var woke;
      v, r, woke := Select(p, v, schedule[used], schedule[..used + 1]);
      used, wakeups := used + 1, if woke then wakeups + 1 else wakeups;
    }
    if r.None? {
      assert schedule[..used] == schedule;
    }
  }

  /** Plain `select_ok` over the attempts 0..others: the first success, or the last error. */
  method SelectOk<T>(others: nat, schedule: seq<Event<T>>) returns (r: Option<Completion<T>>, used: nat)
    requires Legal(others, schedule)
    ensures used <= |schedule|
    ensures r.Some? ==> used > 0 && schedule[used - 1].Completes? && schedule[used - 1].outcome == r.value
    ensures forall i | 0 <= i < used - 1 && schedule[i].Completes? :: schedule[i].outcome.Err?
    ensures r.Some? && r.value.Err? ==> Settled(others, schedule[..used])
    ensures r.None? ==> used == |schedule| && !Settled(others, schedule)
                        && forall i | 0 <= i < used && schedule[i].Completes? :: schedule[i].outcome.Err?
  {
    var webrtcPending, othersPending := true, Fallbacks(others);
    r, used := None, 0;
    while used < |schedule|
      invariant used <= |schedule| && r.None?
      invariant forall i | 0 <= i < used && schedule[i].Completes? :: schedule[i].outcome.Err?
      invariant webrtcPending == WebRtcPending(schedule[..used])
      invariant othersPending == OthersPending(others, schedule[..used])
      invariant !Settled(others, schedule[..used])
    {
      PrefixStep(schedule, used);
      var e := schedule[used];
      used := used + 1;
      if e.Completes? {
        if e.attempt == 0 {
          webrtcPending := false;
        } else {
          othersPending := othersPending - {e.attempt};
        }
        if e.outcome.Ok? || (!webrtcPending && othersPending == {}) {
          r := Some(e.outcome);
          return;
        }
      }
    }
    assert schedule[..used] == schedule;
  }

  // ----- what the answer means

  /** An attempt is pending until it completes. */
  lemma {:induction false} PendingUntil<T>(others: nat, h: seq<Event<T>>, j: nat, i: nat)
    requires Legal(others, h) && j <= i < |h|
    ensures h[j].at <= h[i].at
    ensures h[i].Completes? ==> IsPending(others, h[..j], h[i].attempt)
  {
    if i < |h| - 1 {
      PendingUntil(others, Init(h), j, i);
      assert h[..j] == Init(h)[..j];
    } else {
      PendingBefore(others, h, j);
      if j < i {
        PendingUntil(others, Init(h), j, i - 1);
      }
    }
  }

  lemma {:induction false} PendingBefore<T>(others: nat, h: seq<Event<T>>, j: nat)
    requires h != [] && Legal(others, h) && j < |h|
    ensures forall a | IsPending(others, Init(h), a) :: IsPending(others, h[..j], a)
  {
    if j == |h| - 1 {
      assert h[..j] == Init(h);
    } else {
      PendingBefore(others, Init(h), j);
      assert h[..j] == Init(h)[..j];
    }
  }

  lemma {:induction false} PendingWithin<T>(others: nat, h: seq<Event<T>>)
    ensures OthersPending(others, h) <= Fallbacks(others)
  {
    if h != [] {
      PendingWithin(others, Init(h));
    }
  }

  /** An attempt that is no longer pending has completed. */
  lemma {:induction false} CompletedSomewhere<T>(others: nat, h: seq<Event<T>>, a: nat) returns (i: nat)
    requires a <= others && !IsPending(others, h, a)
    ensures i < |h| && h[i].Completes? && h[i].attempt == a
  {
    assert h != [];
    if Last(h).Completes? && Last(h).attempt == a {
      i := |h| - 1;
    } else {
      i := CompletedSomewhere(others, Init(h), a);
    }
  }

  /** A connection is never invented: it was the result of some attempt. */
  lemma VerdictWasObserved<T>(p: Params<T>, h: seq<Event<T>>) returns (i: nat)
    requires Decided(p, h) && Verdict(p, h).Connected?
    ensures i < |h| && h[i].Completes? && h[i].outcome == Ok(Verdict(p, h).conn)
  {
    i := if Last(h).Completes? && Last(h).outcome.Ok? then |h| - 1 else FirstRelay(p, h).value;
  }

  /** A direct connection ends the run at once and is the answer. */
  lemma DirectWinsOutright<T>(p: Params<T>, h: seq<Event<T>>, i: nat)
    requires Undecided(p, h) && Legal(p.others, h) && i < |h| && IsDirect(p, h[i])
    ensures i == |h| - 1 && Decided(p, h) && Verdict(p, h) == Connected(h[i].outcome.conn)
  {
    PrefixStep(h, i);
    if i < |h| - 1 {
      assert Decided(p, h[..i + 1]);
      assert false;
    }
  }

  /** A relayed connection is returned only when no direct one was seen, and either nothing is in
      flight any more or the window that the first relayed success armed has run out. */
  lemma RelayOnlyAsLastResort<T>(p: Params<T>, h: seq<Event<T>>)
    requires Legal(p.others, h) && Undecided(p, h) && Decided(p, h)
    requires Verdict(p, h).Connected? && !p.isP2P(Verdict(p, h).conn)
    ensures forall i | 0 <= i < |h| :: !IsDirect(p, h[i])
    ensures Settled(p.others, h)
            || exists i :: 0 <= i < |h| && IsRelayed(p, h[i]) && Last(h).at >= h[i].at + p.windowMs
  {
    forall i | 0 <= i < |h| ensures !IsDirect(p, h[i]) {
      if IsDirect(p, h[i]) {
        DirectWinsOutright(p, h, i);
      }
    }
  }

  /** The other half: the window does end.  Once the timer is seen `windowMs` after the first relayed
      success, the race is over and the relay parked then is the answer, whatever is still in flight. */
  lemma WindowEndsTheRace<T>(p: Params<T>, h: seq<Event<T>>, i: nat)
    requires h != [] && Last(h).Timer?
    requires i < |h| && h[i].Completes? && h[i].outcome.Ok? && !p.isP2P(h[i].outcome.conn)
    requires forall j | 0 <= j < i && h[j].Completes? && h[j].outcome.Ok? :: p.isP2P(h[j].outcome.conn)
    requires Last(h).at >= h[i].at + p.windowMs
    ensures Decided(p, h) && Verdict(p, h) == Connected(h[i].outcome.conn)
  {
    assert IsRelayed(p, h[i]) && forall j | 0 <= j < i :: !IsRelayed(p, h[j]);
  }

  /** A timer seen earlier decides nothing. */
  lemma WindowIsNotCutShort<T>(p: Params<T>, h: seq<Event<T>>)
    requires h != [] && Last(h).Timer?
    requires forall i | 0 <= i < |h| && IsRelayed(p, h[i]) :: Last(h).at < h[i].at + p.windowMs
    ensures !Decided(p, h)
  {
  }

  /** When every attempt has completed, a relayed success that comes last is the answer itself; after a
      failure that comes last it is the relay that was parked first. */
  lemma LastCompletionChooses<T>(p: Params<T>, h: seq<Event<T>>, i: nat)
    requires h != [] && Last(h).Completes? && Settled(p.others, h)
    requires i < |h| && IsRelayed(p, h[i]) && forall j | 0 <= j < i :: !IsRelayed(p, h[j])
    ensures Decided(p, h)
    ensures Verdict(p, h) == Connected(if Last(h).outcome.Ok? then Last(h).outcome.conn else h[i].outcome.conn)
  {
    assert FirstRelay(p, h) == Some(i);
  }

  predicate HasCompleted<T>(h: seq<Event<T>>, a: nat) {
    exists i :: 0 <= i < |h| && h[i].Completes? && h[i].attempt == a
  }

  /** Nothing is in flight any more exactly when every attempt has completed. */
  lemma SettledIff<T>(others: nat, h: seq<Event<T>>)
    ensures Settled(others, h) <==> forall a: nat | a <= others :: HasCompleted(h, a)
  {
    if Settled(others, h) {
      forall a: nat | a <= others ensures HasCompleted(h, a) {
        var i := CompletedSomewhere(others, h, a);
      }
    } else {
      PendingWithin(others, h);
      var a: nat := if WebRtcPending(h) then 0 else var b :| b in OthersPending(others, h); b;
      assert a <= others && IsPending(others, h, a);
      if HasCompleted(h, a) {
        var i :| 0 <= i < |h| && h[i].Completes? && h[i].attempt == a;
        CompletedIsNotPending(others, h, i);
        assert false;
      }
    }
  }

  lemma {:induction false} CompletedIsNotPending<T>(others: nat, h: seq<Event<T>>, i: nat)
    requires i < |h| && h[i].Completes?
    ensures !IsPending(others, h, h[i].attempt)
  {
    if i < |h| - 1 {
      CompletedIsNotPending(others, Init(h), i);
    }
  }

  /** The event that decides the race is one that wakes it. */
  lemma DecisionWakes<T>(p: Params<T>, h: seq<Event<T>>)
    requires Decided(p, h)
    ensures Wakes(p, h)
  {
  }

  /** The window is armed by the first relayed success and by nothing later. */
  lemma {:induction false} WindowNeverExtended<T>(p: Params<T>, h: seq<Event<T>>, k: nat)
    requires k <= |h| && FirstRelay(p, h[..k]).Some?
    ensures FirstRelay(p, h) == FirstRelay(p, h[..k])
  {
    if k == |h| {
      assert h[..k] == h;
    } else {
      assert h[..k] == Init(h)[..k];
      WindowNeverExtended(p, Init(h), k);
    }
  }

  /** The guarantee the race exists for: a direct attempt that completes before the window of the
      first relayed success has run out is the answer, however early that relay arrived. */
  lemma DirectWithinWindowWins<T>(p: Params<T>, schedule: seq<Event<T>>, i: nat)
    requires Legal(p.others, schedule) && i < |schedule| && IsDirect(p, schedule[i])
    requires forall j | 0 <= j < i :: !IsDirect(p, schedule[j])
    requires var first := FirstRelay(p, schedule[..i]);
             first.Some? ==> schedule[i].at < schedule[first.value].at + p.windowMs
    ensures var h := schedule[..i + 1];
            Undecided(p, h) && Decided(p, h) && Verdict(p, h) == Connected(schedule[i].outcome.conn)
  {
    var h := schedule[..i + 1];
    PrefixStep(schedule, i);
    forall j | 0 <= j < |h| ensures !Decided(p, h[..j]) {
      assert h[..j] == schedule[..j];
      if j > 0 {
        PrefixStep(schedule, j - 1);
        NotDecidedBefore(p, schedule, i, j);
      }
    }
  }

  lemma NotDecidedBefore<T>(p: Params<T>, schedule: seq<Event<T>>, i: nat, j: nat)
    requires Legal(p.others, schedule) && 0 < j <= i < |schedule| && IsDirect(p, schedule[i])
    requires forall j' | 0 <= j' < i :: !IsDirect(p, schedule[j'])
    requires var first := FirstRelay(p, schedule[..i]);
             first.Some? ==> schedule[i].at < schedule[first.value].at + p.windowMs
    ensures !Decided(p, schedule[..j])
  {
    var g := schedule[..j];
    PrefixStep(schedule, j - 1);
    PendingUntil(p.others, schedule, j, i);
    PendingUntil(p.others, schedule, j - 1, i);
    if WindowOver(p, g) {
      assert g == schedule[..i][..j];
      WindowNeverExtended(p, schedule[..i], j);
    }
  }

  /** The race fails exactly when every attempt has failed: no connection is lost. */
  lemma FailsIffEverythingFailed<T>(p: Params<T>, h: seq<Event<T>>)
    requires Legal(p.others, h) && Undecided(p, h) && Decided(p, h)
    ensures Verdict(p, h).Failed? <==>
            Settled(p.others, h) && forall i | 0 <= i < |h| && h[i].Completes? :: h[i].outcome.Err?
  {
    if Verdict(p, h).Failed? {
      forall i | 0 <= i < |h| && h[i].Completes? ensures h[i].outcome.Err? {
        if IsDirect(p, h[i]) { DirectWinsOutright(p, h, i); }
      }
    }
  }

  /** Both reasons are reported when the race fails. */
  lemma {:induction false} FailureNamesBothErrors<T>(p: Params<T>, h: seq<Event<T>>, webrtc: bool)
    requires p.others >= 1 && Settled(p.others, h)
    requires forall i | 0 <= i < |h| && h[i].Completes? :: h[i].outcome.Err?
    ensures exists i :: 0 <= i < |h| && h[i].Completes? && (h[i].attempt == 0) == webrtc
                        && LatestError(webrtc, h) == h[i].outcome.error
  {
    var i := CompletedSomewhere(p.others, h, if webrtc then 0 else 1);
    LatestErrorIsOne(h, webrtc, i);
  }

  lemma {:induction false} LatestErrorIsOne<T>(h: seq<Event<T>>, webrtc: bool, k: nat)
    requires k < |h| && h[k].Completes? && h[k].outcome.Err? && (h[k].attempt == 0) == webrtc
    ensures exists i :: 0 <= i < |h| && h[i].Completes? && h[i].outcome.Err? && (h[i].attempt == 0) == webrtc
                        && LatestError(webrtc, h) == h[i].outcome.error
  {
    var e := Last(h);
    if e.Completes? && e.outcome.Err? && (e.attempt == 0) == webrtc {
      assert h[|h| - 1] == e;
    } else {
      LatestErrorIsOne(Init(h), webrtc, k);
      var i :| 0 <= i < |Init(h)| && Init(h)[i].Completes? && Init(h)[i].outcome.Err?
               && (Init(h)[i].attempt == 0) == webrtc && LatestError(webrtc, Init(h)) == Init(h)[i].outcome.error;
      assert h[i] == Init(h)[i];
    }
  }

  /** The race cannot hang once every attempt has completed. */
  lemma {:induction false} CompletionDecides<T>(p: Params<T>, h: seq<Event<T>>)
    requires Settled(p.others, h)
    ensures exists j :: 0 <= j <= |h| && Decided(p, h[..j])
  {
    if h == [] {
      assert false;
    } else if Last(h).Completes? {
      assert h[..|h|] == h;
    } else {
      CompletionDecides(p, Init(h));
      var j :| 0 <= j <= |Init(h)| && Decided(p, Init(h)[..j]);
      assert Init(h)[..j] == h[..j];
    }
  }
}
