/**
  The token provider: one cached access token, refreshed by one caller at a time (the leader) while the
  others (followers) wait on a channel that the leader closes, and then read the shared state again.

  Each critical section under the mutex is a function of the shared fields and a method of the class
  that updates them in place.
 */
module TokenProvider {
  import opened Common

  const REFRESH_SKEW: int := 30 * 1_000_000_000

  datatype FetchError = ContextError | OtherError(text: string)
  datatype Fetch = Fetched(token: string, expiresAt: int) | FetchFailed(err: FetchError)
  datatype Answer = Token(token: string) | Error(err: FetchError)

  /** Channels are numbered in the order they are made; `closed` are the closed ones. */
  datatype Shared = Shared(
    cached: string, expiresAt: int,
    refreshing: bool, refreshDone: nat, refreshErr: Option<FetchError>,
    made: nat, closed: set<nat>)

  const FRESH := Shared("", 0, false, 0, None, 0, {})

  datatype Decision = Hit(token: string) | Follow(channel: nat) | Lead
  datatype Reading = Return(answer: Answer) | Again

  predicate IsFresh(s: Shared, now: int) {
    s.cached != "" && now + REFRESH_SKEW < s.expiresAt
  }

  function Decide(s: Shared, now: int): Decision {
    if IsFresh(s, now) then Hit(s.cached)
    else if s.refreshing then Follow(s.refreshDone)
    else Lead
  }

  function Entered(s: Shared, now: int): Shared {
    if Decide(s, now) == Lead then s.(refreshing := true, refreshDone := s.made, made := s.made + 1, refreshErr := None)
    else s
  }

  function Published(s: Shared, fetch: Fetch): Shared {
    var stored := match fetch
      case FetchFailed(err) => s.(refreshErr := Some(err))
      case Fetched(token, expiresAt) => s.(cached := token, expiresAt := expiresAt);
    stored.(closed := s.closed + {s.refreshDone}, refreshing := false)
  }

  function Invalidated(s: Shared): Shared {
    s.(cached := "", expiresAt := 0)
  }

  function ReadBack(s: Shared, cancelled: bool): Reading {
    match s.refreshErr
    case None => Return(Token(s.cached))
    case Some(err) => if err == ContextError && !cancelled then Again else Return(Error(err))
  }

  function AnswerOf(fetch: Fetch): Answer {
    match fetch
    case Fetched(token, _) => Token(token)
    case FetchFailed(err) => Error(err)
  }

  class OAuth2TokenProvider {
    var cached: string
    var expiresAt: int
    var refreshing: bool
    var refreshDone: nat
    var refreshErr: Option<FetchError>
    var made: nat
    var closed: set<nat>

    function State(): Shared
      reads this
    {
      Shared(cached, expiresAt, refreshing, refreshDone, refreshErr, made, closed)
    }

    /** While a refresh is under way its channel is open, so closing it cannot panic. */
    predicate Valid()
      reads this
    {
      && (forall c :: c in closed ==> c < made)
      && (refreshing ==> refreshDone < made && refreshDone !in closed)
    }

    constructor ()
      ensures Valid() && State() == FRESH
    {
      cached, expiresAt, refreshing, refreshDone, refreshErr := "", 0, false, 0, None;
      made, closed := 0, {};
    }

    /** The first critical section of `Token`. */
    method Enter(now: int) returns (decision: Decision)
      requires Valid()
      modifies this
      ensures Valid() && State() == Entered(old(State()), now) && decision == Decide(old(State()), now)
      ensures decision.Hit? ==> decision.token != "" && now + REFRESH_SKEW < expiresAt
      ensures decision.Lead? ==> refreshing && !old(refreshing) && refreshDone == old(made)
    {
      if cached != "" && now + REFRESH_SKEW < expiresAt {
        return Hit(cached);
      }
      if refreshing {
        return Follow(refreshDone);
      }
      refreshing := true;
      refreshDone := made;
      made := made + 1;
      refreshErr := None;
      decision := Lead;
    }

    /** The leader's second critical section; only a caller that was told to lead reaches it. */
    method Publish(fetch: Fetch) returns (answer: Answer)
      requires Valid() && refreshing
      modifies this
      ensures Valid() && State() == Published(old(State()), fetch) && answer == AnswerOf(fetch)
      ensures old(refreshDone) !in old(closed) && old(refreshDone) in closed
    {
      match fetch {
        case FetchFailed(err) =>
          refreshErr := Some(err);
        case Fetched(token, expiry) =>
          cached := token;
          expiresAt := expiry;
      }
      closed := closed + {refreshDone};
      refreshing := false;
      answer := if fetch.FetchFailed? then Error(fetch.err) else Token(fetch.token);
    }

    /** The follower's second critical section, once its channel is closed. */
    method Read(cancelled: bool) returns (reading: Reading)
      ensures reading == ReadBack(State(), cancelled)
      ensures reading.Again? <==> refreshErr == Some(ContextError) && !cancelled
    {
      var leaderErr := refreshErr;
      if leaderErr == None {
        return Return(Token(cached));
      }
      if leaderErr.value == ContextError && !cancelled {
        return Again;
      }
      reading := Return(Error(leaderErr.value));
    }

    method Invalidate()
      requires Valid()
      modifies this`cached, this`expiresAt
      ensures Valid() && State() == Invalidated(old(State()))
    {
      cached := "";
      expiresAt := 0;
    }
  }
}

/** Any number of concurrent callers of one provider. */
module TokenSystem {
  import opened Common
  import opened Runs
  import opened TokenProvider

  datatype Pc =
    | Entering
    | Leading(channel: nat)
    | Waiting(channel: nat)
    | Woken(channel: nat)
    | Returned(answer: Answer)

  /** `retried` are the refreshes whose context error made the caller go round its loop again. */
  datatype Caller = Caller(pc: Pc, cancelled: bool, retried: seq<nat>)

  datatype Event = Started(channel: nat) | Finished(channel: nat, fetch: Fetch) | Dropped

  datatype World = World(shared: Shared, callers: map<nat, Caller>, leaders: seq<nat>, log: seq<Event>)

  datatype Step =
    | Call(id: nat)
    | Cancel(id: nat)
    | Enter(id: nat, now: int)
    | Publish(id: nat, fetch: Fetch)
    | Wake(id: nat)
    | GiveUp(id: nat)
    | Read(id: nat)
    | Invalidate

  const START := World(FRESH, map[], [], [])

  predicate At(w: World, id: nat) {
    id in w.callers
  }

  predicate Enabled(w: World, step: Step) {
    match step
    case Call(id) => id !in w.callers
    case Cancel(id) => At(w, id)
    case Enter(id, _) => At(w, id) && w.callers[id].pc == Entering
    case Publish(id, fetch) =>
      At(w, id) && w.callers[id].pc.Leading? && (fetch.Fetched? ==> fetch.token != "")
    case Wake(id) => At(w, id) && w.callers[id].pc.Waiting? && w.callers[id].pc.channel in w.shared.closed
    case GiveUp(id) => At(w, id) && w.callers[id].pc.Waiting? && w.callers[id].cancelled
    case Read(id) => At(w, id) && w.callers[id].pc.Woken?
    case Invalidate => true
  }

  function Move(w: World, id: nat, pc: Pc): World
    requires At(w, id)
  {
    w.(callers := w.callers[id := w.callers[id].(pc := pc)])
  }

  function Apply(w: World, step: Step): World
    requires Enabled(w, step)
  {
    match step
    case Call(id) => w.(callers := w.callers[id := Caller(Entering, false, [])])
    case Cancel(id) => w.(callers := w.callers[id := w.callers[id].(cancelled := true)])
    case Enter(id, now) =>
      (match Decide(w.shared, now)
       case Hit(token) => Move(w, id, Returned(Token(token)))
       case Follow(channel) => Move(w, id, Waiting(channel))
       case Lead =>
         var s := Entered(w.shared, now);
         Move(w, id, Leading(s.refreshDone)).(
           shared := s, leaders := w.leaders + [id], log := w.log + [Started(s.refreshDone)]))
    case Publish(id, fetch) =>
      Move(w, id, Returned(AnswerOf(fetch))).(
        shared := Published(w.shared, fetch), log := w.log + [Finished(w.shared.refreshDone, fetch)])
    case Wake(id) => Move(w, id, Woken(w.callers[id].pc.channel))
    case GiveUp(id) => Move(w, id, Returned(Error(ContextError)))
    case Read(id) =>
      (match ReadBack(w.shared, w.callers[id].cancelled)
       case Return(answer) => Move(w, id, Returned(answer))
       case Again =>
         w.(callers := w.callers[id := w.callers[id].(
           pc := Entering, retried := w.callers[id].retried + [w.shared.refreshDone])]))
    case Invalidate => w.(shared := Invalidated(w.shared), log := w.log + [Dropped])
  }

  const SYSTEM: System<World, Step> :=
    System((w, step) => Enabled(w, step), (w, step) => if Enabled(w, step) then Apply(w, step) else w)

  // ---------------------------------------------------------------- single flight

  /** Every channel made so far is closed, except the one of a refresh under way. */
  ghost predicate Channels(w: World) {
    && |w.leaders| == w.shared.made
    && (w.shared.made > 0 ==> w.shared.refreshDone == w.shared.made - 1)
    && (w.shared.refreshing ==> w.shared.made > 0)
    && (forall c: nat :: c in w.shared.closed <==> c < w.shared.made && !(w.shared.refreshing && c == w.shared.refreshDone))
  }

  ghost predicate Placed(w: World, id: nat)
    requires Channels(w) && At(w, id)
  {
    match w.callers[id].pc
    case Leading(channel) =>
      w.shared.refreshing && channel == w.shared.refreshDone && id == w.leaders[w.shared.made - 1]
    case Waiting(channel) => channel < w.shared.made
    case Woken(channel) => channel in w.shared.closed
    case _ => true
  }

  /** A refresh is under way exactly when one caller leads it, and a waiting follower's channel is its own or closed. */
  ghost predicate SingleFlight(w: World) {
    && Channels(w)
    && (w.shared.refreshing ==>
          var leader := w.leaders[w.shared.made - 1];
          At(w, leader) && w.callers[leader].pc == Leading(w.shared.refreshDone))
    && (forall id :: At(w, id) ==> Placed(w, id))
  }

  function Actor(step: Step): Option<nat> {
    if step.Invalidate? then None else Some(step.id)
  }

  lemma OthersStay(w: World, step: Step)
    requires Enabled(w, step)
    ensures var v := Apply(w, step);
            (forall id :: At(w, id) ==> At(v, id)) &&
            (forall id :: At(v, id) && Actor(step) != Some(id) ==> At(w, id) && v.callers[id] == w.callers[id])
  {
  }

  lemma ChannelsStep(w: World, step: Step)
    requires SingleFlight(w) && Enabled(w, step)
    ensures Channels(Apply(w, step))
  {
    if step.Publish? {
      assert Placed(w, step.id);
    }
  }

  lemma PlacedStep(w: World, step: Step, id: nat)
    requires SingleFlight(w) && Enabled(w, step) && At(Apply(w, step), id)
    ensures Channels(Apply(w, step)) && Placed(Apply(w, step), id)
  {
    OthersStay(w, step);
    ChannelsStep(w, step);
    assert At(w, id) ==> Placed(w, id);
  }

  lemma SingleFlightStep(w: World, step: Step)
    requires SingleFlight(w) && Enabled(w, step)
    ensures SingleFlight(Apply(w, step))
  {
    var v := Apply(w, step);
    OthersStay(w, step);
    ChannelsStep(w, step);
    forall id | At(v, id) ensures Placed(v, id) {
      PlacedStep(w, step, id);
    }
    if v.shared.refreshing && w.shared.refreshing {
      var leader := w.leaders[w.shared.made - 1];
      assert Placed(w, leader);
      assert v.callers[leader].pc == w.callers[leader].pc;
    }
  }

  /** `refreshing` holds exactly when some caller is fetching, and no two callers are. */
  lemma OneLeader(w: World, i: nat, j: nat)
    requires SingleFlight(w)
    ensures w.shared.refreshing <==> exists id :: At(w, id) && w.callers[id].pc.Leading?
    ensures At(w, i) && At(w, j) && w.callers[i].pc.Leading? && w.callers[j].pc.Leading? ==> i == j
  {
    assert forall id :: At(w, id) ==> Placed(w, id);
  }

  lemma SingleFlightAlways(w: World, steps: seq<Step>)
    requires SingleFlight(w) && Run(SYSTEM, w, steps)
    ensures SingleFlight(After(SYSTEM, w, steps))
  {
    forall v, step | SingleFlight(v) && Enabled(v, step) ensures SingleFlight(Apply(v, step)) {
      SingleFlightStep(v, step);
    }
    Always(SYSTEM, v => SingleFlight(v), w, steps);
  }

  /** A leader always closes an open channel, so no channel is closed twice. */
  lemma NoDoubleClose(w: World, id: nat, fetch: Fetch)
    requires SingleFlight(w) && Enabled(w, Publish(id, fetch))
    ensures w.callers[id].pc.channel == w.shared.refreshDone && w.shared.refreshDone !in w.shared.closed
  {
  }

  /**
    No wakeup is lost: a follower can go on at once, or there is a leader whose publication, whatever it
    fetched, lets it go on.
   */
  lemma NoLostWakeup(w: World, id: nat, fetch: Fetch)
    requires SingleFlight(w) && At(w, id) && w.callers[id].pc.Waiting? && (fetch.Fetched? ==> fetch.token != "")
    ensures Enabled(w, Wake(id)) ||
            exists leader :: Enabled(w, Publish(leader, fetch)) && Enabled(Apply(w, Publish(leader, fetch)), Wake(id))
  {
    if !Enabled(w, Wake(id)) {
      var leader := w.leaders[w.shared.made - 1];
      assert Enabled(Apply(w, Publish(leader, fetch)), Wake(id));
    }
  }

  // ---------------------------------------------------------------- what a follower is told

  /** The failure recorded by the refresh that started last, once it has finished. */
  function LatestFailure(log: seq<Event>): Option<FetchError> {
    if log == [] then None
    else match log[|log| - 1]
      case Started(_) => None
      case Finished(_, fetch) => if fetch.FetchFailed? then Some(fetch.err) else None
      case Dropped => LatestFailure(log[..|log| - 1])
  }

  /** The token stored last and its expiry, unless it has been dropped since. */
  function LatestStored(log: seq<Event>): Option<(string, int)> {
    if log == [] then None
    else match log[|log| - 1]
      case Started(_) => LatestStored(log[..|log| - 1])
      case Finished(_, fetch) =>
        if fetch.Fetched? then Some((fetch.token, fetch.expiresAt)) else LatestStored(log[..|log| - 1])
      case Dropped => None
  }

  function LatestToken(log: seq<Event>): string {
    if LatestStored(log) == None then "" else LatestStored(log).value.0
  }

  function LatestExpiry(log: seq<Event>): int {
    if LatestStored(log) == None then 0 else LatestStored(log).value.1
  }

  ghost predicate LogAgrees(w: World) {
    && w.shared.cached == LatestToken(w.log) && w.shared.expiresAt == LatestExpiry(w.log)
    && w.shared.refreshErr == LatestFailure(w.log)
    && (w.shared.refreshing ==> w.shared.refreshErr == None)
  }

  lemma LatestOfLonger(log: seq<Event>, event: Event)
    ensures LatestFailure(log + [event]) ==
              match event
              case Started(_) => None
              case Finished(_, fetch) => if fetch.FetchFailed? then Some(fetch.err) else None
              case Dropped => LatestFailure(log)
    ensures LatestStored(log + [event]) ==
              match event
              case Started(_) => LatestStored(log)
              case Finished(_, fetch) => if fetch.Fetched? then Some((fetch.token, fetch.expiresAt)) else LatestStored(log)
              case Dropped => None
  {
    assert (log + [event])[..|log|] == log;
  }

  lemma LogAgreesOnLead(w: World, step: Step)
    requires LogAgrees(w) && Enabled(w, step) && step.Enter? && Decide(w.shared, step.now) == Lead
    ensures LogAgrees(Apply(w, step))
  {
    LatestOfLonger(w.log, Started(Entered(w.shared, step.now).refreshDone));
  }

  lemma LogAgreesOnPublish(w: World, step: Step)
    requires SingleFlight(w) && LogAgrees(w) && Enabled(w, step) && step.Publish?
    ensures LogAgrees(Apply(w, step))
  {
    assert Placed(w, step.id);
    LatestOfLonger(w.log, Finished(w.shared.refreshDone, step.fetch));
  }

  lemma LogAgreesOnInvalidate(w: World)
    requires LogAgrees(w)
    ensures LogAgrees(Apply(w, Invalidate))
  {
    LatestOfLonger(w.log, Dropped);
  }

  /** No other step touches the shared state or the history. */
  lemma OtherStepsAreLocal(w: World, step: Step)
    requires Enabled(w, step) && !step.Publish? && !step.Invalidate?
    requires step.Enter? ==> Decide(w.shared, step.now) != Lead
    ensures Apply(w, step).shared == w.shared && Apply(w, step).log == w.log
  {
  }

  lemma LogAgreesStep(w: World, step: Step)
    requires SingleFlight(w) && LogAgrees(w) && Enabled(w, step)
    ensures LogAgrees(Apply(w, step))
  {
    if step.Publish? {
      LogAgreesOnPublish(w, step);
    } else if step.Invalidate? {
      LogAgreesOnInvalidate(w);
    } else if step.Enter? && Decide(w.shared, step.now) == Lead {
      LogAgreesOnLead(w, step);
    } else {
      OtherStepsAreLocal(w, step);
    }
  }

  lemma LogAgreesAlways(w: World, steps: seq<Step>)
    requires SingleFlight(w) && LogAgrees(w) && Run(SYSTEM, w, steps)
    ensures SingleFlight(After(SYSTEM, w, steps)) && LogAgrees(After(SYSTEM, w, steps))
  {
    forall v, step | SingleFlight(v) && LogAgrees(v) && Enabled(v, step)
      ensures SingleFlight(Apply(v, step)) && LogAgrees(Apply(v, step))
    {
      SingleFlightStep(v, step);
      LogAgreesStep(v, step);
    }
    Always(SYSTEM, v => SingleFlight(v) && LogAgrees(v), w, steps);
  }

  /** What a follower reads, from the history alone. */
  function ToldBy(log: seq<Event>, cancelled: bool): Reading {
    match LatestFailure(log)
    case None => Return(Token(LatestToken(log)))
    case Some(err) => if err == ContextError && !cancelled then Again else Return(Error(err))
  }

  /**
    In every run a follower's answer is decided by the history; and when nothing started and nothing was
    dropped since its leader finished, it is that leader's own answer, or another try after a context error.
   */
  lemma FollowerIsTold(steps: seq<Step>, id: nat)
    requires Run(SYSTEM, START, steps) && Enabled(After(SYSTEM, START, steps), Read(id))
    ensures var w := After(SYSTEM, START, steps);
            var told := ReadBack(w.shared, w.callers[id].cancelled);
            && told == ToldBy(w.log, w.callers[id].cancelled)
            && (forall fetch :: w.log != [] && w.log[|w.log| - 1] == Finished(w.callers[id].pc.channel, fetch) ==>
                  told == if fetch == FetchFailed(ContextError) && !w.callers[id].cancelled then Again
                          else Return(AnswerOf(fetch)))
  {
    LogAgreesAlways(START, steps);
  }

  /**
    Without that condition the claim fails: if another caller starts a refresh between a leader's failure and
    its follower's read, the follower is told that all is well and gets the cached text, which by then is
    empty or within the skew of its expiry.
   */
  lemma DisplacedFollower(w: World, id: nat, other: nat, now: int)
    requires SingleFlight(w) && Enabled(w, Read(id)) && Enabled(w, Enter(other, now))
    requires Decide(w.shared, now) == Lead && w.shared.refreshErr.Some?
    ensures var v := Apply(w, Enter(other, now));
            Enabled(v, Read(id)) &&
            Apply(v, Read(id)).callers[id].pc == Returned(Token(w.shared.cached)) && !IsFresh(w.shared, now)
  {
    assert other != id;
  }

  lemma LeaderAndFollower() returns (steps: seq<Step>, w: World)
    ensures Run(SYSTEM, START, steps) && After(SYSTEM, START, steps) == w && Invalidate !in steps
    ensures w == World(Shared("", 0, true, 0, None, 1, {}),
                       map[0 := Caller(Leading(0), false, []), 1 := Caller(Waiting(0), false, [])],
                       [0], [Started(0)])
  {
    steps, w := Then(SYSTEM, START, [], Call(0));
    steps, w := Then(SYSTEM, START, steps, Enter(0, 0));
    assert w.callers == map[0 := Caller(Leading(0), false, [])];
    steps, w := Then(SYSTEM, START, steps, Call(1));
    steps, w := Then(SYSTEM, START, steps, Enter(1, 0));
    assert w.callers == map[0 := Caller(Leading(0), false, []), 1 := Caller(Waiting(0), false, [])];
  }

  lemma FollowerOfAFailure(err: FetchError) returns (steps: seq<Step>, w: World)
    ensures Run(SYSTEM, START, steps) && After(SYSTEM, START, steps) == w && Invalidate !in steps
    ensures w == World(Shared("", 0, false, 0, Some(err), 1, {0}),
                       map[0 := Caller(Returned(Error(err)), false, []), 1 := Caller(Woken(0), false, [])],
                       [0], [Started(0), Finished(0, FetchFailed(err))])
  {
    steps, w := LeaderAndFollower();
    steps, w := Then(SYSTEM, START, steps, Publish(0, FetchFailed(err)));
    steps, w := Then(SYSTEM, START, steps, Wake(1));
  }

  /** Such a run exists: a caller returns an empty token and no error although its refresh failed. */
  lemma EmptyTokenWithoutError(err: FetchError) returns (steps: seq<Step>)
    ensures Run(SYSTEM, START, steps) && Invalidate !in steps
    ensures var w := After(SYSTEM, START, steps);
            At(w, 0) && w.callers[0].pc == Returned(Error(err)) && At(w, 1) && w.callers[1].pc == Returned(Token(""))
  {
    var w;
    steps, w := FollowerOfAFailure(err);
    steps, w := Then(SYSTEM, START, steps, Call(2));
    steps, w := Then(SYSTEM, START, steps, Enter(2, 0));
    steps, w := Then(SYSTEM, START, steps, Read(1));
  }

  /** A caller gets an empty token only by following, and exactly when no failure is on record and nothing is stored. */
  lemma EmptyTokenOnlyByFollowing(steps: seq<Step>, step: Step, id: nat)
    requires Run(SYSTEM, START, steps) && Enabled(After(SYSTEM, START, steps), step)
    requires At(After(SYSTEM, START, steps), id) && !After(SYSTEM, START, steps).callers[id].pc.Returned?
    ensures var w := After(SYSTEM, START, steps);
            Apply(w, step).callers[id].pc == Returned(Token("")) <==>
            step == Read(id) && LatestFailure(w.log) == None && LatestToken(w.log) == ""
  {
    LogAgreesAlways(START, steps);
  }

  /** The i-th event is the last one, invalidations aside. */
  predicate LastKept(log: seq<Event>, i: nat) {
    i < |log| && log[i] != Dropped && forall j :: i < j < |log| ==> log[j] == Dropped
  }

  /** The latest thing that happened, invalidations aside, is a refresh that failed with `err`. */
  ghost predicate EndsInFailure(log: seq<Event>, err: FetchError) {
    exists i: nat :: LastKept(log, i) && log[i].Finished? && log[i].fetch == FetchFailed(err)
  }

  lemma {:induction false} LatestFailureIff(log: seq<Event>, err: FetchError)
    ensures LatestFailure(log) == Some(err) <==> EndsInFailure(log, err)
    decreases |log|
  {
    if log != [] {
      var init, last := log[..|log| - 1], |log| - 1;
      if log[last] == Dropped {
        LatestFailureIff(init, err);
        if i: nat :| LastKept(init, i) && init[i].Finished? && init[i].fetch == FetchFailed(err) {
          assert LastKept(log, i);
        }
        if i: nat :| LastKept(log, i) && log[i].Finished? && log[i].fetch == FetchFailed(err) {
          assert LastKept(init, i) && init[i] == log[i];
        }
      } else {
        assert LastKept(log, last);
        assert forall i: nat :: LastKept(log, i) ==> i == last;
      }
    }
  }

  /**
    In every run a woken follower is given a token and no error, empty, stale or fresh, if and only if the
    latest thing that happened, invalidations aside, is not a failed refresh; it is the token stored last.
   */
  lemma FollowerIsGivenATokenIff(steps: seq<Step>, id: nat)
    requires Run(SYSTEM, START, steps) && Enabled(After(SYSTEM, START, steps), Read(id))
    ensures var w := After(SYSTEM, START, steps);
            var told := ReadBack(w.shared, w.callers[id].cancelled);
            && ((told.Return? && told.answer.Token?) <==> forall err :: !EndsInFailure(w.log, err))
            && (told.Return? && told.answer.Token? ==> told.answer.token == LatestToken(w.log))
  {
    LogAgreesAlways(START, steps);
    var w := After(SYSTEM, START, steps);
    forall err ensures LatestFailure(w.log) == Some(err) <==> EndsInFailure(w.log, err) {
      LatestFailureIff(w.log, err);
    }
    if LatestFailure(w.log).Some? {
      assert EndsInFailure(w.log, LatestFailure(w.log).value);
    }
  }

  // ---------------------------------------------------------------- who is served from the cache

  /** The i-th event stored the token, and it was neither replaced nor dropped after that. */
  predicate StoredAt(log: seq<Event>, token: string, expiresAt: int, i: nat) {
    && i < |log| && log[i].Finished? && log[i].fetch == Fetched(token, expiresAt)
    && forall j :: i < j < |log| ==> log[j].Started? || (log[j].Finished? && log[j].fetch.FetchFailed?)
  }

  ghost predicate Stored(log: seq<Event>, token: string, expiresAt: int) {
    exists i: nat :: StoredAt(log, token, expiresAt, i)
  }

  lemma {:induction false} LatestStoredIff(log: seq<Event>, token: string, expiresAt: int)
    ensures LatestStored(log) == Some((token, expiresAt)) <==> Stored(log, token, expiresAt)
    decreases |log|
  {
    if log != [] {
      var init, last := log[..|log| - 1], |log| - 1;
      LatestStoredIff(init, token, expiresAt);
      if i: nat :| StoredAt(init, token, expiresAt, i) {
        assert log[i] == init[i];
        assert (log[last].Started? || (log[last].Finished? && log[last].fetch.FetchFailed?)) ==>
               StoredAt(log, token, expiresAt, i);
      }
      if i: nat :| StoredAt(log, token, expiresAt, i) {
        assert i < last ==> StoredAt(init, token, expiresAt, i);
      }
      if log[last].Finished? && log[last].fetch == Fetched(token, expiresAt) {
        assert StoredAt(log, token, expiresAt, last);
      }
    }
  }

  /**
    In every run a caller is served from the cache, without a fetch, if and only if the token was stored, was neither
    replaced nor dropped since, and its own expiry is more than thirty seconds away.
   */
  lemma ServedFromCacheIff(steps: seq<Step>, id: nat, now: int, token: string)
    requires Run(SYSTEM, START, steps) && Enabled(After(SYSTEM, START, steps), Enter(id, now))
    ensures var w := After(SYSTEM, START, steps);
            Apply(w, Enter(id, now)).callers[id].pc == Returned(Token(token)) <==>
            token != "" && exists expiresAt :: Stored(w.log, token, expiresAt) && now + 30_000_000_000 < expiresAt
  {
    LogAgreesAlways(START, steps);
    var w := After(SYSTEM, START, steps);
    forall expiresAt ensures LatestStored(w.log) == Some((token, expiresAt)) <==> Stored(w.log, token, expiresAt) {
      LatestStoredIff(w.log, token, expiresAt);
    }
    if LatestStored(w.log).Some? && LatestToken(w.log) == token {
      assert Stored(w.log, token, LatestExpiry(w.log));
    }
  }

  /** In particular, directly after a fetch every caller is served its token until thirty seconds before its expiry. */
  lemma FetchedTokenIsServed(w: World, id: nat, token: string, expiresAt: int, other: nat, now: int)
    requires SingleFlight(w) && Enabled(w, Publish(id, Fetched(token, expiresAt)))
    requires At(w, other) && w.callers[other].pc == Entering
    ensures var v := Apply(w, Publish(id, Fetched(token, expiresAt)));
            && v.callers[id].pc == Returned(Token(token))
            && Enabled(v, Enter(other, now))
            && (Apply(v, Enter(other, now)).callers[other].pc == Returned(Token(token)) <==>
                  now + 30_000_000_000 < expiresAt)
  {
    OthersStay(w, Publish(id, Fetched(token, expiresAt)));
  }

  /** How a call ends: with the cached token, its own fetch, its own cancellation, or what it reads as a follower. */
  lemma HowCallsEnd(w: World, step: Step, id: nat, answer: Answer)
    requires At(w, id) && !w.callers[id].pc.Returned? && Enabled(w, step)
    requires Apply(w, step).callers[id].pc == Returned(answer)
    ensures match step
            case Enter(caller, now) =>
              caller == id && answer == Token(w.shared.cached) && w.shared.cached != "" &&
              now + 30_000_000_000 < w.shared.expiresAt
            case Publish(caller, fetch) =>
              caller == id &&
              answer == (match fetch case Fetched(token, _) => Token(token) case FetchFailed(err) => Error(err))
            case GiveUp(caller) => caller == id && w.callers[id].cancelled && answer == Error(ContextError)
            case Read(caller) =>
              caller == id &&
              (match w.shared.refreshErr
               case None => answer == Token(w.shared.cached)
               case Some(err) => answer == Error(err) && (err == ContextError ==> w.callers[id].cancelled))
            case _ => false
  {
  }

  /** A waiting follower can stop waiting exactly when its channel is closed, or it has been cancelled. */
  lemma StopsWaitingIff(w: World, id: nat)
    requires At(w, id) && w.callers[id].pc.Waiting?
    ensures Enabled(w, Wake(id)) <==> w.callers[id].pc.channel in w.shared.closed
    ensures Enabled(w, GiveUp(id)) <==> w.callers[id].cancelled
    ensures Enabled(w, GiveUp(id)) ==>
              var v := Apply(w, GiveUp(id)); v.shared == w.shared && v.callers[id].pc == Returned(Error(ContextError))
  {
  }

  // ---------------------------------------------------------------- followers do not loop for ever

  /** A lead is taken once; who led a finished refresh has returned its outcome. */
  ghost predicate LeadersDone(w: World) {
    && |w.leaders| == w.shared.made
    && NoDuplicates(w.leaders)
    && (forall k :: 0 <= k < |w.leaders| ==> At(w, w.leaders[k]))
    && (forall k :: 0 <= k < |w.leaders| ==>
          if k in w.shared.closed then w.callers[w.leaders[k]].pc.Returned? else w.callers[w.leaders[k]].pc.Leading?)
    && (w.shared.refreshErr.Some? ==>
          && w.shared.made > 0 && !w.shared.refreshing
          && w.callers[w.leaders[w.shared.made - 1]].pc == Returned(Error(w.shared.refreshErr.value)))
  }

  /** Refresh `g` was led by a call other than `id` and failed with a context error. */
  ghost predicate Culprit(w: World, g: nat, id: nat) {
    && g in w.shared.closed && g < |w.leaders| && w.leaders[g] != id
    && At(w, w.leaders[g]) && w.callers[w.leaders[g]].pc == Returned(Error(ContextError))
  }

  /** Every pass of a caller's loop was caused by a culprit of its own. */
  ghost predicate PassesEarned(w: World, id: nat)
    requires At(w, id)
  {
    var caller := w.callers[id];
    && (forall i, j :: 0 <= i < j < |caller.retried| ==> caller.retried[i] < caller.retried[j])
    && (forall g :: g in caller.retried ==> Culprit(w, g, id))
    && (caller.pc.Waiting? || caller.pc.Woken? ==> forall g :: g in caller.retried ==> g < caller.pc.channel)
  }

  ghost predicate Earned(w: World) {
    LeadersDone(w) && forall id :: At(w, id) ==> PassesEarned(w, id)
  }

  lemma CulpritStays(w: World, step: Step, g: nat, id: nat)
    requires Enabled(w, step) && Culprit(w, g, id)
    ensures Culprit(Apply(w, step), g, id)
  {
    OthersStay(w, step);
  }

  lemma CulpritsStay(w: World, step: Step, id: nat)
    requires At(w, id) && PassesEarned(w, id) && Enabled(w, step)
    ensures forall g :: g in w.callers[id].retried ==> Culprit(Apply(w, step), g, id)
  {
    forall g | g in w.callers[id].retried ensures Culprit(Apply(w, step), g, id) {
      CulpritStays(w, step, g, id);
    }
  }

  /** A pass of the loop: its culprit is the leader of the latest refresh. */
  lemma PassIsEarned(w: World, id: nat)
    requires SingleFlight(w) && LeadersDone(w) && Enabled(w, Read(id)) && PassesEarned(w, id)
    requires Apply(w, Read(id)).callers[id].pc == Entering
    ensures PassesEarned(Apply(w, Read(id)), id)
  {
    var v := Apply(w, Read(id));
    var before, g := w.callers[id].retried, w.shared.refreshDone;
    assert Placed(w, id);
    CulpritsStay(w, Read(id), id);
    assert v.callers[id].retried == before + [g];
    forall i | 0 <= i < |before| ensures before[i] < g {
      assert before[i] in before && w.callers[id].pc.channel <= g;
    }
    assert Culprit(v, g, id);
  }

  lemma PassesEarnedStep(w: World, step: Step, id: nat)
    requires SingleFlight(w) && LeadersDone(w) && At(w, id) && PassesEarned(w, id) && Enabled(w, step)
    ensures PassesEarned(Apply(w, step), id)
  {
    if step == Read(id) && Apply(w, step).callers[id].pc == Entering {
      PassIsEarned(w, id);
    } else {
      OthersStay(w, step);
      CulpritsStay(w, step, id);
      assert Apply(w, step).callers[id].retried == w.callers[id].retried;
    }
  }

  lemma LeadersDoneOnLead(w: World, step: Step)
    requires SingleFlight(w) && LeadersDone(w) && Enabled(w, step)
    requires step.Enter? && Decide(w.shared, step.now) == Lead
    ensures LeadersDone(Apply(w, step))
  {
    assert step.id !in w.leaders;
  }

  lemma LeadersDoneStep(w: World, step: Step)
    requires SingleFlight(w) && LeadersDone(w) && Enabled(w, step)
    ensures LeadersDone(Apply(w, step))
  {
    if step.Enter? && Decide(w.shared, step.now) == Lead {
      LeadersDoneOnLead(w, step);
    } else {
      assert Apply(w, step).leaders == w.leaders;
    }
  }

  lemma EarnedStep(w: World, step: Step)
    requires SingleFlight(w) && Earned(w) && Enabled(w, step)
    ensures Earned(Apply(w, step))
  {
    var v := Apply(w, step);
    LeadersDoneStep(w, step);
    OthersStay(w, step);
    forall id | At(v, id) ensures PassesEarned(v, id) {
      if At(w, id) {
        PassesEarnedStep(w, step, id);
      }
    }
  }

  lemma EarnedAlways(w: World, steps: seq<Step>)
    requires SingleFlight(w) && Earned(w) && Run(SYSTEM, w, steps)
    ensures Earned(After(SYSTEM, w, steps))
  {
    forall v, step | SingleFlight(v) && Earned(v) && Enabled(v, step)
      ensures SingleFlight(Apply(v, step)) && Earned(Apply(v, step))
    {
      EarnedStep(v, step);
      SingleFlightStep(v, step);
    }
    Always(SYSTEM, v => SingleFlight(v) && Earned(v), w, steps);
  }

  ghost function FailedByContext(w: World, except: nat): set<nat> {
    set id | id in w.callers && id != except && w.callers[id].pc == Returned(Error(ContextError))
  }

  /** A call goes round its loop at most as often as other calls have failed with a context error. */
  lemma LoopIsBounded(steps: seq<Step>, id: nat)
    requires Run(SYSTEM, START, steps) && At(After(SYSTEM, START, steps), id)
    ensures var w := After(SYSTEM, START, steps);
            |w.callers[id].retried| <= |FailedByContext(w, id)|
  {
    EarnedAlways(START, steps);
    var w := After(SYSTEM, START, steps);
    assert PassesEarned(w, id);
    var retried := w.callers[id].retried;
    assert forall i :: 0 <= i < |retried| ==> retried[i] in retried && Culprit(w, retried[i], id);
    var culprits := seq(|retried|, i requires 0 <= i < |retried| => w.leaders[retried[i]]);
    forall i, j | 0 <= i < j < |culprits| ensures culprits[i] != culprits[j] {
      assert retried[i] < retried[j];
    }
    NoDuplicatesSize(culprits);
    SubsetSize(Elements(culprits), FailedByContext(w, id));
  }
}
