/**
 * The loop of `Tapper.run`, one iteration per tick. Each iteration reads
 * the clock and re-authenticates only when the token is at least
 * `token_live_time` seconds old. All the work of an iteration (login,
 * balance, tasks, claim, the long sleep) happens inside that branch. A
 * revoked session ends the loop; a handshake that yields no data
 * continues it without touching the token.
 *
 * `time()` readings, handshake outcomes and `randint(3500, 3600)` draws
 * are inputs, one set per iteration. Time is in seconds as `real` (float
 * rounding is not modelled).
 */
module TokenGate {
  import opened InitData

  const MinLiveTime: int := 3500
  const MaxLiveTime: int := 3600

  /** `access_token_created_time` and `token_live_time`. */
  datatype Token = Token(createdAt: real, liveTime: int)

  /** The inputs of one iteration. */
  datatype Tick = Tick(
    now: real,         // `time()` at the gate
    webData: WebData,  // what `get_tg_web_data` returned or raised
    loggedInAt: real,  // `time()` after login
    liveDraw: int)     // the new `randint(3500, 3600)`

  /** What one iteration did. */
  datatype Event =
    | Idle                 // the token is still fresh: nothing happens
    | AuthRetry            // no init data: `continue` without touching the token
    | Terminated           // `InvalidSession` propagates out of `run`
    | Cycle(initData: string, gateTime: real, before: Token, after: Token, tasks: bool, claim: bool)
                           // re-authenticated, then balance, tasks if enabled, claim if enabled, sleep

  /** `time() - access_token_created_time >= token_live_time`. */
  predicate Due(t: Token, now: real)
  {
    now - t.createdAt >= t.liveTime as real
  }

  /**
   * One iteration. The token changes only in a `Cycle`, which needs the
   * gate to be open and takes the login time and the new live-time draw.
   */
  function Step(t: Token, k: Tick, autoTask: bool, claimReward: bool): (r: (Token, Event))
    ensures !Due(t, k.now) ==> r == (t, Idle)
    ensures r.1.Cycle? ==> Due(t, k.now) && r.1.gateTime == k.now && r.1.before == t
    ensures r.1.Cycle? ==> r.1.after == r.0 == Token(k.loggedInAt, k.liveDraw)
    ensures Due(t, k.now) && k.webData.Data? ==> r.1.Cycle? && r.1.initData == k.webData.initData
    ensures Due(t, k.now) && k.webData.NoData? ==> r == (t, AuthRetry)
    ensures r.1.Cycle? ==> r.1.tasks == autoTask && r.1.claim == claimReward
    ensures !r.1.Cycle? ==> r.0 == t
    ensures r.1 == Terminated <==> Due(t, k.now) && k.webData.Revoked?
  {
    if Due(t, k.now) then
      match k.webData
      case Revoked => (t, Terminated)
      case NoData => (t, AuthRetry)
      case Data(d) => (Token(k.loggedInAt, k.liveDraw), Cycle(d, k.now, t, Token(k.loggedInAt, k.liveDraw), autoTask, claimReward))
    else (t, Idle)
  }

  /** The loop has ended: its last event is `Terminated`. */
  predicate Stopped(events: seq<Event>)
  {
    |events| > 0 && events[|events| - 1] == Terminated
  }

  /** The token and the events after running `ticks` from token `t0`; nothing happens after `Terminated`. */
  function Replay(t0: Token, ticks: seq<Tick>, autoTask: bool, claimReward: bool): (Token, seq<Event>)
  {
    if ticks == [] then (t0, [])
    else
      var (t, events) := Replay(t0, ticks[..|ticks| - 1], autoTask, claimReward);
      if Stopped(events) then (t, events)
      else
        var (t', e) := Step(t, ticks[|ticks| - 1], autoTask, claimReward);
        (t', events + [e])
  }

  /** Once stopped, further ticks change nothing. */
  lemma {:induction false} ReplayStaysStopped(t0: Token, ticks: seq<Tick>, n: nat, autoTask: bool, claimReward: bool)
    requires n <= |ticks|
    requires Stopped(Replay(t0, ticks[..n], autoTask, claimReward).1)
    ensures Replay(t0, ticks, autoTask, claimReward) == Replay(t0, ticks[..n], autoTask, claimReward)
    decreases |ticks| - n
  {
    if n < |ticks| {
      assert ticks[..n + 1][..n] == ticks[..n];
      ReplayStaysStopped(t0, ticks, n + 1, autoTask, claimReward);
    } else {
      assert ticks[..n] == ticks;
    }
  }

  /**
   * `run` after its start delay, over the iterations `ticks`; it stops at
   * a revoked session. The first gate reading sees `created = 0` and the
   * first live-time draw `initialLive`.
   */
  method Run(initialLive: int, ticks: seq<Tick>, autoTask: bool, claimReward: bool)
    returns (token: Token, events: seq<Event>)
    ensures (token, events) == Replay(Token(0.0, initialLive), ticks, autoTask, claimReward)
  {
    token := Token(0.0, initialLive);
    events := [];
    var i := 0;
    while i < |ticks|
      invariant 0 <= i <= |ticks|
      invariant (token, events) == Replay(Token(0.0, initialLive), ticks[..i], autoTask, claimReward)
      invariant !Stopped(events)
    {
      assert ticks[..i + 1][..i] == ticks[..i];
      var k := ticks[i];
      if k.now - token.createdAt >= token.liveTime as real {
        match k.webData {
          case Revoked =>
            events := events + [Terminated];
            ReplayStaysStopped(Token(0.0, initialLive), ticks, i + 1, autoTask, claimReward);
            return;
          case NoData =>
            events := events + [AuthRetry];
          case Data(d) =>
            var before := token;
            token := Token(k.loggedInAt, k.liveDraw);
            events := events + [Cycle(d, k.now, before, token, autoTask, claimReward)];
        }
      } else {
        events := events + [Idle];
      }
      i := i + 1;
    }
    assert ticks[..|ticks|] == ticks;
  }

  /** The token in force after `events`: that of the last re-authentication, or `t0`. */
  function CurrentToken(t0: Token, events: seq<Event>): Token
  {
    if events == [] then t0
    else if events[|events| - 1].Cycle? then events[|events| - 1].after
    else CurrentToken(t0, events[..|events| - 1])
  }

  /**
   * Every re-authentication replaced the token in force at that moment,
   * and happened only when that token had reached its live time.
   */
  ghost predicate Chained(t0: Token, events: seq<Event>)
  {
    forall j :: 0 <= j < |events| && events[j].Cycle? ==>
      events[j].before == CurrentToken(t0, events[..j]) && Due(events[j].before, events[j].gateTime)
  }

  /** Replaying keeps the token equal to the last one issued, and the refreshes chained. */
  lemma {:induction false} ReplayChained(t0: Token, ticks: seq<Tick>, autoTask: bool, claimReward: bool)
    ensures var (t, events) := Replay(t0, ticks, autoTask, claimReward);
      t == CurrentToken(t0, events) && Chained(t0, events)
  {
    if ticks != [] {
      var front := ticks[..|ticks| - 1];
      ReplayChained(t0, front, autoTask, claimReward);
      var r := Replay(t0, front, autoTask, claimReward);
      if !Stopped(r.1) {
        var s := Step(r.0, ticks[|ticks| - 1], autoTask, claimReward);
        assert Replay(t0, ticks, autoTask, claimReward) == (s.0, r.1 + [s.1]);
        ChainedAppend(t0, r.1, s.1);
      }
    }
  }

  /** An event that replaces the token in force, once due, extends a chained history. */
  lemma ChainedAppend(t0: Token, events: seq<Event>, e: Event)
    requires Chained(t0, events)
    requires e.Cycle? ==> e.before == CurrentToken(t0, events) && Due(e.before, e.gateTime)
    ensures Chained(t0, events + [e])
    ensures CurrentToken(t0, events + [e]) == if e.Cycle? then e.after else CurrentToken(t0, events)
  {
    var grown := events + [e];
    assert grown[..|events|] == events;
    assert grown[..|grown| - 1] == events;
    forall j | 0 <= j < |grown| && grown[j].Cycle?
      ensures grown[j].before == CurrentToken(t0, grown[..j]) && Due(grown[j].before, grown[j].gateTime)
    {
      if j < |events| {
        assert grown[..j] == events[..j];
      }
    }
  }

  /** With no refresh between positions `i` and `j`, the token in force at `j` is the one issued at `i`. */
  lemma {:induction false} CurrentTokenSince(t0: Token, events: seq<Event>, i: nat, j: nat)
    requires i < j <= |events| && events[i].Cycle?
    requires forall m :: i < m < j ==> !events[m].Cycle?
    ensures CurrentToken(t0, events[..j]) == events[i].after
    decreases j
  {
    var prefix := events[..j];
    assert prefix[..j - 1] == events[..j - 1];
    if j - 1 > i {
      CurrentTokenSince(t0, events, i, j - 1);
    }
  }

  /**
   * Two consecutive re-authentications are at least the first one's live
   * time apart: the gate reading of the second is at least `liveTime`
   * seconds after the login time the first one recorded.
   */
  lemma ConsecutiveRefreshesSpaced(t0: Token, ticks: seq<Tick>, autoTask: bool, claimReward: bool, i: nat, j: nat)
    requires var events := Replay(t0, ticks, autoTask, claimReward).1;
      i < j < |events| && events[i].Cycle? && events[j].Cycle? &&
      forall m :: i < m < j ==> !events[m].Cycle?
    ensures var events := Replay(t0, ticks, autoTask, claimReward).1;
      events[j].before == events[i].after &&
      events[j].gateTime - events[i].after.createdAt >= events[i].after.liveTime as real
  {
    ReplayChained(t0, ticks, autoTask, claimReward);
    var events := Replay(t0, ticks, autoTask, claimReward).1;
    CurrentTokenSince(t0, events, i, j);
  }

  /** Every token in force holds a live time drawn from [3500, 3600]. */
  lemma {:induction false} LiveTimesInRange(t0: Token, ticks: seq<Tick>, autoTask: bool, claimReward: bool)
    requires MinLiveTime <= t0.liveTime <= MaxLiveTime
    requires forall k :: 0 <= k < |ticks| ==> MinLiveTime <= ticks[k].liveDraw <= MaxLiveTime
    ensures var (t, events) := Replay(t0, ticks, autoTask, claimReward);
      MinLiveTime <= t.liveTime <= MaxLiveTime &&
      forall j :: 0 <= j < |events| && events[j].Cycle? ==> MinLiveTime <= events[j].after.liveTime <= MaxLiveTime
  {
    if ticks != [] {
      var front := ticks[..|ticks| - 1];
      LiveTimesInRange(t0, front, autoTask, claimReward);
    }
  }

  /**
   * The whole loop: no two consecutive re-authentications are less than
   * 3500 s apart (from the recorded login time to the next gate reading),
   * and the first one waits out the initial live time from `created = 0`.
   */
  lemma RefreshesAtLeastMinLiveApart(initialLive: int, ticks: seq<Tick>, autoTask: bool, claimReward: bool, i: nat, j: nat)
    requires MinLiveTime <= initialLive <= MaxLiveTime
    requires forall k :: 0 <= k < |ticks| ==> MinLiveTime <= ticks[k].liveDraw <= MaxLiveTime
    requires var events := Replay(Token(0.0, initialLive), ticks, autoTask, claimReward).1;
      i < j < |events| && events[i].Cycle? && events[j].Cycle? &&
      forall m :: i < m < j ==> !events[m].Cycle?
    ensures var events := Replay(Token(0.0, initialLive), ticks, autoTask, claimReward).1;
      events[j].gateTime - events[i].after.createdAt >= MinLiveTime as real
  {
    ConsecutiveRefreshesSpaced(Token(0.0, initialLive), ticks, autoTask, claimReward, i, j);
    LiveTimesInRange(Token(0.0, initialLive), ticks, autoTask, claimReward);
  }

  /** The first re-authentication happens at a gate reading of at least the initial live time. */
  lemma FirstRefreshWaits(initialLive: int, ticks: seq<Tick>, autoTask: bool, claimReward: bool, j: nat)
    requires var events := Replay(Token(0.0, initialLive), ticks, autoTask, claimReward).1;
      j < |events| && events[j].Cycle? && forall m :: 0 <= m < j ==> !events[m].Cycle?
    ensures Replay(Token(0.0, initialLive), ticks, autoTask, claimReward).1[j].gateTime >= initialLive as real
  {
    ReplayChained(Token(0.0, initialLive), ticks, autoTask, claimReward);
    var events := Replay(Token(0.0, initialLive), ticks, autoTask, claimReward).1;
    NoRefreshKeepsInitial(Token(0.0, initialLive), events, j);
  }

  /** Before the first refresh, the initial token is in force. */
  lemma {:induction false} NoRefreshKeepsInitial(t0: Token, events: seq<Event>, j: nat)
    requires j <= |events| && forall m :: 0 <= m < j ==> !events[m].Cycle?
    ensures CurrentToken(t0, events[..j]) == t0
  {
    if j > 0 {
      assert events[..j][..j - 1] == events[..j - 1];
      NoRefreshKeepsInitial(t0, events, j - 1);
    }
  }
}
