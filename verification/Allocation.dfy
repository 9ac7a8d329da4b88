/** The retry policy the uploader and the party allocator share. Durations are whole milliseconds. */
module RetryPolicy {
  import opened Common
  import opened Backoff

  datatype Options = Options(maxAttempts: nat, baseDelay: nat, maxDelay: nat)

  /** What the options' constructor insists on. */
  predicate Validated(options: Options) {
    options.maxAttempts >= 1 && options.baseDelay <= options.maxDelay
  }

  function NewOptions(maxAttempts: int, baseDelay: int, maxDelay: int): (made: Option<Options>)
    ensures made.Some? <==> 1 <= maxAttempts && 0 <= baseDelay <= maxDelay
    ensures made.Some? ==> Validated(made.value)
  {
    if maxAttempts < 1 || baseDelay < 0 || maxDelay < baseDelay then None
    else Some(Options(maxAttempts, baseDelay, maxDelay))
  }

  /** The validated options are those that can be made. */
  lemma ValidatedIff(options: Options)
    ensures Validated(options) <==> NewOptions(options.maxAttempts, options.baseDelay, options.maxDelay) == Some(options)
  {
  }

  const DEFAULT := Options(6, 1_000, 16_000)

  /** The pause after attempt number `attempt`, counted from one. */
  function DelayAfter(options: Options, attempt: nat): nat
    requires attempt >= 1
  {
    DelayForAttempt(options.baseDelay, options.maxDelay, attempt)
  }

  /** Every pause of a call that made `attempts` attempts. */
  predicate Pauses(options: Options, attempts: nat, slept: seq<nat>) {
    |slept| + 1 == attempts && forall k :: 0 <= k < |slept| ==> slept[k] == DelayAfter(options, k + 1)
  }

  function Total(pauses: seq<nat>): nat {
    if pauses == [] then 0 else Total(pauses[..|pauses| - 1]) + pauses[|pauses| - 1]
  }

  lemma {:induction false} TotalIsBounded(options: Options, slept: seq<nat>)
    requires Validated(options)
    requires forall k :: 0 <= k < |slept| ==> slept[k] == DelayAfter(options, k + 1)
    ensures |slept| * options.baseDelay <= Total(slept) <= |slept| * options.maxDelay
  {
    if slept != [] {
      var n := |slept| - 1;
      TotalIsBounded(options, slept[..n]);
      DelayForAttemptIsDoubled(options.baseDelay, options.maxDelay, n + 1);
      OneMore(n, options.baseDelay);
      OneMore(n, options.maxDelay);
    }
  }

  lemma OneMore(n: nat, delay: nat)
    ensures (n + 1) * delay == n * delay + delay
  {
  }

  /** With the default policy the pauses are 1, 2, 4, 8 and 16 seconds: half a minute in all. */
  lemma DefaultPausesTakeHalfAMinute(attempts: nat, slept: seq<nat>)
    requires attempts <= DEFAULT.maxAttempts && Pauses(DEFAULT, attempts, slept)
    ensures slept == [1_000, 2_000, 4_000, 8_000, 16_000][..|slept|] && Total(slept) == 1_000 * (Pow2(|slept|) - 1)
  {
    assert Pow2(3) == 8 && Pow2(4) == 16 && Pow2(5) == 32;
    assert forall k :: 0 <= k < |slept| ==> slept[k] == 1_000 * Pow2(k);
    FullPauses(slept, |slept|);
    assert slept[..|slept|] == slept;
  }

  lemma {:induction false} FullPauses(slept: seq<nat>, n: nat)
    requires n <= |slept|
    requires forall k :: 0 <= k < |slept| ==> slept[k] == 1_000 * Pow2(k)
    ensures Total(slept[..n]) == 1_000 * (Pow2(n) - 1)
  {
    if n > 0 {
      FullPauses(slept, n - 1);
      assert slept[..n][..n - 1] == slept[..n - 1];
    }
  }
}

/** Uploading a DAR while the package service warms up. */
module DarUpload {
  import opened RetryPolicy

  const SERVICE_UNAVAILABLE := 503

  datatype Sent = Answer(status: int) | NoAnswer

  datatype Upload = Returned(status: int) | Threw

  /**
    What the k-th send comes to is `send(k)`, and `sleeps(k)` says whether the pause after it ends. The loop
    goes on exactly after a 503 that is not the last one allowed.
   */
  method SendWithRetry(options: Options, send: nat -> Sent, sleeps: nat -> bool)
    returns (result: Upload, posts: nat, slept: seq<nat>)
    requires Validated(options)
    ensures 1 <= posts <= options.maxAttempts && Pauses(options, posts, slept)
    ensures forall k: nat :: k < posts - 1 ==> send(k) == Answer(503) && sleeps(k)
    ensures var last := send(posts - 1);
            if last == Answer(503) && posts < options.maxAttempts
            then !sleeps(posts - 1) && result == Threw
            else result == if last.Answer? then Returned(last.status) else Threw
  {
    var attempt := 1;
    slept := [];
    while true
      invariant 1 <= attempt <= options.maxAttempts
      invariant Pauses(options, attempt, slept)
      invariant forall k: nat :: k < attempt - 1 ==> send(k) == Answer(SERVICE_UNAVAILABLE) && sleeps(k)
      decreases options.maxAttempts - attempt
    {
      var response := send(attempt - 1);
      if response.NoAnswer? {
        return Threw, attempt, slept;
      }
      if response.status != SERVICE_UNAVAILABLE || attempt >= options.maxAttempts {
        return Returned(response.status), attempt, slept;
      }
      if !sleeps(attempt - 1) {
        return Threw, attempt, slept;
      }
      slept := slept + [DelayAfter(options, attempt)];
      attempt := attempt + 1;
    }
  }
}

/** Allocating a party on a server that may commit without answering. */
module Allocation {
  import opened Common
  import opened Text
  import opened RetryPolicy
  import opened RightsPolicy

  const PARTY_ALREADY_EXISTS := "Party already exists"
  const REQUEST_ALREADY_IN_FLIGHT := "REQUEST_ALREADY_IN_FLIGHT"

  /** What one POST comes to. `party` is the party of the body's details, None when there is no usable one. */
  datatype Answer =
    | TimedOut
    | Cancelled
    | Faulted
    | Answered(status: int, body: string, party: Option<string>)

  datatype Listing = Listed(parties: seq<string>) | LookupFailed

  datatype Failure = OutOfTime | CallCancelled | NetworkFault | Unreadable | Refused(status: int) | NotLooked

  datatype Outcome = Allocated(party: string) | Failed(why: Failure)

  predicate IsSuccess(a: Answer) {
    a.Answered? && 200 <= a.status < 300
  }

  predicate IsTransient(status: int, body: string) {
    status == 503 || status == 504 || (status == 409 && Contains(body, REQUEST_ALREADY_IN_FLIGHT))
  }

  predicate IsPartyAlreadyExists(status: int, body: string) {
    status == 400 && Contains(body, PARTY_ALREADY_EXISTS)
  }

  /** The request may have been carried out, and the answer does not tell. */
  predicate Inconclusive(a: Answer) {
    a.TimedOut? || (a.Answered? && IsTransient(a.status, a.body))
  }

  predicate AlreadyExists(a: Answer) {
    a.Answered? && IsPartyAlreadyExists(a.status, a.body)
  }

  function PartyPrefix(hint: string): string {
    hint + "::"
  }

  /** The first party listed with the hint's prefix. */
  function FindPartyByHint(hint: string, parties: seq<string>): (found: Option<string>)
    ensures found == None <==> forall i :: 0 <= i < |parties| ==> !(PartyPrefix(hint) <= parties[i])
    ensures found.Some? ==>
              exists i :: 0 <= i < |parties| && parties[i] == found.value && PartyPrefix(hint) <= parties[i] &&
                forall j :: 0 <= j < i ==> !(PartyPrefix(hint) <= parties[j])
  {
    if parties == [] then None
    else if PartyPrefix(hint) <= parties[0] then
      assert parties[0] == parties[0];
      Some(parties[0])
    else
      var found := FindPartyByHint(hint, parties[1..]);
      assert found.Some? ==> forall i :: 0 <= i < |parties| - 1 ==> parties[1..][i] == parties[i + 1];
      found
  }

  /** A hint that every party with its prefix has before its first "::". */
  predicate CleanHint(hint: string) {
    Separator(hint + "::") == |hint|
  }

  lemma CleanHintIff(hint: string)
    ensures CleanHint(hint) <==> !HasSeparator(hint) && (hint != "" ==> hint[|hint| - 1] != ':')
  {
    var prefix := hint + "::";
    assert forall k :: 0 <= k < |hint| ==> prefix[k] == hint[k];
    assert prefix[|hint|] == ':' && prefix[|hint| + 1] == ':';
    assert HasSeparator(prefix);
  }

  /** What is found starts with the hint and "::"; the part before its first "::" is the hint iff the hint is clean. */
  lemma FoundHasTheHint(hint: string, parties: seq<string>)
    requires FindPartyByHint(hint, parties).Some?
    ensures hint + "::" <= FindPartyByHint(hint, parties).value
    ensures Hint(FindPartyByHint(hint, parties).value) == hint <==> CleanHint(hint)
  {
    var prefix, party := hint + "::", FindPartyByHint(hint, parties).value;
    assert prefix[|hint|] == ':' && prefix[|hint| + 1] == ':';
    assert HasSeparator(prefix);
    SeparatorOfExtension(prefix, party);
    assert party[..|hint|] == hint;
  }

  /** So no party is found for two clean hints, whatever is listed. */
  lemma HintsShareNoParty(a: string, b: string, s: seq<string>, t: seq<string>)
    requires CleanHint(a) && CleanHint(b)
    requires FindPartyByHint(a, s).Some? && FindPartyByHint(a, s) == FindPartyByHint(b, t)
    ensures a == b
  {
    FoundHasTheHint(a, s);
    FoundHasTheHint(b, t);
  }

  /** A hint that ends in a colon can share one with another hint, although neither contains "::". */
  lemma ColonSharesAParty()
    ensures !HasSeparator("a") && !HasSeparator("a:")
    ensures FindPartyByHint("a", ["a:::n"]) == FindPartyByHint("a:", ["a:::n"]) == Some("a:::n")
  {
    assert "a:" + "::" <= "a:::n" && "a" + "::" <= "a:::n";
  }

  // ---------------------------------------------------------------- the call

  /** The answer sends the call to look the party up: the party exists, and an earlier request may have made it. */
  predicate LooksUp(answer: Answer, first: bool) {
    AlreadyExists(answer) && !first
  }

  /** What the call makes of an answer that it does not retry. */
  function Conclude(hint: string, answer: Answer, first: bool, listing: Listing): Outcome {
    match answer
    case TimedOut => Failed(OutOfTime)
    case Cancelled => Failed(CallCancelled)
    case Faulted => Failed(NetworkFault)
    case Answered(status, body, party) =>
      if IsSuccess(answer) then
        if party.Some? then Allocated(party.value) else Failed(Unreadable)
      else if LooksUp(answer, first) then
        match listing
        case LookupFailed => Failed(NotLooked)
        case Listed(parties) =>
          var existing := FindPartyByHint(hint, parties);
          if existing.Some? then Allocated(existing.value) else Failed(Refused(status))
      else Failed(Refused(status))
  }

  /**
   * A whole call of `posts` requests: every answer but the last was inconclusive and slept on, and the
   * last was conclusive, or the last one allowed, or its pause was cancelled.
   */
  predicate CallOf(hint: string, options: Options, send: nat -> Answer, sleeps: nat -> bool, lookup: nat -> Listing,
                   posts: nat, outcome: Outcome) {
    && 1 <= posts <= options.maxAttempts
    && (forall k: nat :: k < posts - 1 ==> Inconclusive(send(k)) && sleeps(k))
    && if Inconclusive(send(posts - 1)) && posts < options.maxAttempts
       then !sleeps(posts - 1) && outcome == Failed(CallCancelled)
       else outcome == Conclude(hint, send(posts - 1), posts == 1, lookup(posts - 1))
  }

  /** The k-th answer is `send(k)`; after it the pause ends if `sleeps(k)`, and a lookup reads `lookup(k)`. */
  method PostWithRetry(hint: string, options: Options, send: nat -> Answer, sleeps: nat -> bool, lookup: nat -> Listing)
    returns (outcome: Outcome, posts: nat, slept: seq<nat>)
    requires Validated(options)
    ensures CallOf(hint, options, send, sleeps, lookup, posts, outcome)
    ensures Pauses(options, posts, slept)
  {
    var earlierAttemptInconclusive := false;
    var attempt := 1;
    slept := [];
    while true
      invariant 1 <= attempt <= options.maxAttempts
      invariant Pauses(options, attempt, slept)
      invariant earlierAttemptInconclusive <==> attempt > 1
      invariant forall k: nat :: k < attempt - 1 ==> Inconclusive(send(k)) && sleeps(k)
      decreases options.maxAttempts - attempt
    {
      posts := attempt;
      var response := send(attempt - 1);
      match response {
        case Cancelled =>
          return Failed(CallCancelled), posts, slept;
        case Faulted =>
          return Failed(NetworkFault), posts, slept;
        case TimedOut =>
          if attempt >= options.maxAttempts {
            return Failed(OutOfTime), posts, slept;
          }
        case Answered(status, body, party) =>
          if IsSuccess(response) {
            return if party.Some? then Allocated(party.value) else Failed(Unreadable), posts, slept;
          }
          if !IsTransient(status, body) {
            if earlierAttemptInconclusive && IsPartyAlreadyExists(status, body) {
              var listing := lookup(attempt - 1);
              if listing.LookupFailed? {
                return Failed(NotLooked), posts, slept;
              }
              var existing := FindPartyByHint(hint, listing.parties);
              if existing.Some? {
                return Allocated(existing.value), posts, slept;
              }
            }
            return Failed(Refused(status)), posts, slept;
          }
          if attempt >= options.maxAttempts {
            return Failed(Refused(status)), posts, slept;
          }
      }
      if !sleeps(attempt - 1) {
        return Failed(CallCancelled), posts, slept;
      }
      slept := slept + [DelayAfter(options, attempt)];
      earlierAttemptInconclusive := true;
      attempt := attempt + 1;
    }
  }

  /** What a call retries: a time-out, a 503, a 504, and a 409 that says the request is in flight. */
  lemma RetriesIff(hint: string, options: Options, send: nat -> Answer, sleeps: nat -> bool, lookup: nat -> Listing,
                   posts: nat, outcome: Outcome, k: nat)
    requires CallOf(hint, options, send, sleeps, lookup, posts, outcome) && k < posts
    requires k == posts - 1 ==> posts < options.maxAttempts && outcome != Failed(CallCancelled)
    ensures k < posts - 1 <==>
            match send(k)
            case TimedOut => true
            case Answered(status, body, _) =>
              status == 503 || status == 504 || (status == 409 && Contains(body, "REQUEST_ALREADY_IN_FLIGHT"))
            case _ => false
  {
  }

  predicate ListsHint(listing: Listing, hint: string) {
    listing.Listed? && exists p :: p in listing.parties && hint + "::" <= p
  }

  /**
    A call returns a party iff its last answer is a 2xx that names it; or is a 400 that says a party already exists,
    was not the first answer, and a lookup lists a party with the hint and "::".
   */
  lemma AllocatedIff(hint: string, options: Options, send: nat -> Answer, sleeps: nat -> bool, lookup: nat -> Listing,
                     posts: nat, outcome: Outcome)
    requires CallOf(hint, options, send, sleeps, lookup, posts, outcome)
    ensures outcome.Allocated? <==>
            match send(posts - 1)
            case Answered(status, body, party) =>
              || (200 <= status < 300 && party.Some?)
              || (&& status == 400 && Contains(body, "Party already exists") && posts > 1
                  && ListsHint(lookup(posts - 1), hint))
            case _ => false
    ensures outcome.Allocated? ==>
              if 200 <= send(posts - 1).status < 300 then Some(outcome.party) == send(posts - 1).party
              else lookup(posts - 1).Listed? && FindPartyByHint(hint, lookup(posts - 1).parties) == Some(outcome.party)
  {
    if lookup(posts - 1).Listed? {
      ListsHintIff(hint, lookup(posts - 1).parties);
    }
  }

  /** What a call that fails is told, when its last pause was not cancelled. */
  lemma FailsBecause(hint: string, options: Options, send: nat -> Answer, sleeps: nat -> bool, lookup: nat -> Listing,
                     posts: nat, outcome: Outcome)
    requires CallOf(hint, options, send, sleeps, lookup, posts, outcome) && outcome.Failed?
    requires posts == options.maxAttempts || !Inconclusive(send(posts - 1))
    ensures match send(posts - 1)
            case TimedOut => outcome.why == OutOfTime
            case Cancelled => outcome.why == CallCancelled
            case Faulted => outcome.why == NetworkFault
            case Answered(status, body, party) =>
              if 200 <= status < 300 then outcome.why == Unreadable && party == None
              else if status == 400 && Contains(body, "Party already exists")
                      && posts > 1 && lookup(posts - 1).LookupFailed?
              then outcome.why == NotLooked
              else outcome.why == Refused(status)
  {
  }

  lemma ListsHintIff(hint: string, parties: seq<string>)
    ensures ListsHint(Listed(parties), hint) <==> FindPartyByHint(hint, parties).Some?
  {
    var found := FindPartyByHint(hint, parties);
    if found.Some? {
      assert found.value in parties && hint + "::" <= found.value;
    }
  }

  /** The answers, the pauses and the listings leave no choice: there is one call. */
  lemma CallIsUnique(hint: string, options: Options, send: nat -> Answer, sleeps: nat -> bool, lookup: nat -> Listing,
                     m: nat, p: Outcome, n: nat, q: Outcome)
    requires CallOf(hint, options, send, sleeps, lookup, m, p) && CallOf(hint, options, send, sleeps, lookup, n, q)
    ensures m == n && p == q
  {
  }
}

/**
  One allocation call, the server, and other clients.

  A request that was sent is carried out at some later step, or never, whatever its caller has been answered
  meanwhile: it makes the party that its hint names if there is none, and otherwise finds that it exists.
 */
module AllocationSystem {
  import opened Common
  import opened Text
  import opened Runs
  import opened RetryPolicy
  import opened Allocation

  datatype Setting = Setting(hint: string, namespace: string, options: Options)

  datatype Fate = Pending | Made | Existed

  datatype Phase = Ready | Waiting | Pausing | LookingUp | Returned(outcome: Outcome)

  /** `fates[k]` is what became of the k-th request at the server, `answers[k]` what its caller was told. */
  datatype World = World(
    parties: set<string>,
    fates: seq<Fate>,
    phase: Phase,
    answers: seq<Answer>,
    cancelled: bool,
    listing: Listing)

  datatype Step =
    | Send
    | CarryOut(request: nat)
    | Reply(answer: Answer)
    | EndPause
    | CancelPause
    | Lookup(listing: Listing)
    | OtherAllocates(party: string)

  /** The party that the hint names on this server. */
  function Own(c: Setting): string {
    PartyPrefix(c.hint) + c.namespace
  }

  function Start(parties: set<string>): World {
    World(parties, [], Ready, [], false, LookupFailed)
  }

  /** A success is reported only by the request that made the party, and "already exists" only by one that found it. */
  predicate Truthful(c: Setting, answer: Answer, fate: Fate) {
    && (IsSuccess(answer) ==> fate == Made && answer.party in {None, Some(Own(c))})
    && (AlreadyExists(answer) ==> fate == Existed)
  }

  /** A listing shows only parties there are, and every one that has the hint. */
  ghost predicate Shows(c: Setting, listing: Listing, parties: set<string>) {
    listing.Listed? ==>
      && (forall p :: p in listing.parties ==> p in parties)
      && forall p :: p in parties && PartyPrefix(c.hint) <= p ==> p in listing.parties
  }

  predicate Retries(c: Setting, w: World) {
    w.answers != [] && Inconclusive(w.answers[|w.answers| - 1]) && |w.answers| < c.options.maxAttempts
  }

  ghost predicate Enabled(c: Setting, w: World, step: Step) {
    match step
    case Send => w.phase == Ready
    case CarryOut(request) => request < |w.fates| && w.fates[request] == Pending
    case Reply(answer) => w.phase == Waiting && w.fates != [] && Truthful(c, answer, w.fates[|w.fates| - 1])
    case EndPause => w.phase == Pausing
    case CancelPause => w.phase == Pausing
    case Lookup(listing) => w.phase == LookingUp && w.answers != [] && Shows(c, listing, w.parties)
    case OtherAllocates(_) => true
  }

  /** Where an answer takes the call. */
  function Told(c: Setting, w: World, answer: Answer): World {
    var v := w.(answers := w.answers + [answer]);
    v.(phase :=
      if Retries(c, v) then Pausing
      else if LooksUp(answer, |v.answers| == 1) then LookingUp
      else Returned(Conclude(c.hint, answer, |v.answers| == 1, v.listing)))
  }

  ghost function Apply(c: Setting, w: World, step: Step): World
    requires Enabled(c, w, step)
  {
    match step
    case Send => w.(fates := w.fates + [Pending], phase := Waiting)
    case CarryOut(request) =>
      if Own(c) in w.parties then w.(fates := w.fates[request := Existed])
      else w.(fates := w.fates[request := Made], parties := w.parties + {Own(c)})
    case Reply(answer) => Told(c, w, answer)
    case EndPause => w.(phase := Ready)
    case CancelPause => w.(phase := Returned(Failed(CallCancelled)), cancelled := true)
    case Lookup(listing) =>
      var answer := w.answers[|w.answers| - 1];
      w.(phase := Returned(Conclude(c.hint, answer, |w.answers| == 1, listing)), listing := listing)
    case OtherAllocates(party) => w.(parties := w.parties + {party})
  }

  ghost function Server(c: Setting): System<World, Step> {
    System((w, step) => Enabled(c, w, step), (w, step) => if Enabled(c, w, step) then Apply(c, w, step) else w)
  }

  /** Nobody else allocates a party with the hint. */
  ghost function Alone(c: Setting): System<World, Step> {
    Restricted(Server(c), (w: World, step: Step) => !(step.OtherAllocates? && PartyPrefix(c.hint) <= step.party))
  }

  // ---------------------------------------------------------------- the call's own course

  ghost predicate Shape(c: Setting, w: World) {
    && |w.fates| == |w.answers| + (if w.phase == Waiting then 1 else 0)
    && |w.fates| <= c.options.maxAttempts
    && (forall k :: 0 <= k < |w.answers| - 1 ==> Inconclusive(w.answers[k]))
    && (w.cancelled ==> w.phase.Returned?)
    && match w.phase
       case Ready => |w.answers| < c.options.maxAttempts && (w.answers != [] ==> Retries(c, w))
       case Waiting => w.answers != [] ==> Retries(c, w)
       case Pausing => Retries(c, w)
       case LookingUp => |w.answers| > 1 && AlreadyExists(w.answers[|w.answers| - 1])
       case Returned(outcome) =>
         && w.answers != []
         && (w.cancelled <==> Retries(c, w))
         && outcome ==
              if w.cancelled then Failed(CallCancelled)
              else Conclude(c.hint, w.answers[|w.answers| - 1], |w.answers| == 1, w.listing)
  }

  lemma ShapeStep(c: Setting, w: World, step: Step)
    requires Validated(c.options) && Shape(c, w) && Enabled(c, w, step)
    ensures Shape(c, Apply(c, w, step))
  {
  }

  lemma ShapeAlways(c: Setting, parties: set<string>, steps: seq<Step>)
    requires Validated(c.options) && Run(Server(c), Start(parties), steps)
    ensures Shape(c, After(Server(c), Start(parties), steps))
  {
    forall w, step | Shape(c, w) && Enabled(c, w, step) ensures Shape(c, Apply(c, w, step)) {
      ShapeStep(c, w, step);
    }
    Always(Server(c), w => Shape(c, w), Start(parties), steps);
  }

  /** The call's end, in terms of its answers alone: it is the outcome of the allocator's own loop. */
  lemma EndsAsTheLoop(c: Setting, w: World, posts: nat, outcome: Outcome)
    requires Validated(c.options) && Shape(c, w) && w.phase.Returned?
    ensures var send := (k: nat) => if k < |w.answers| then w.answers[k] else TimedOut;
            var sleeps := (k: nat) => !(w.cancelled && k == |w.answers| - 1);
            CallOf(c.hint, c.options, send, sleeps, _ => w.listing, posts, outcome) <==>
            posts == |w.answers| && outcome == w.phase.outcome
  {
    var send := (k: nat) => if k < |w.answers| then w.answers[k] else TimedOut;
    var sleeps := (k: nat) => !(w.cancelled && k == |w.answers| - 1);
    var lookup: nat -> Listing := _ => w.listing;
    var n := |w.answers|;
    assert send(n - 1) == w.answers[n - 1];
    assert CallOf(c.hint, c.options, send, sleeps, lookup, n, w.phase.outcome);
    if CallOf(c.hint, c.options, send, sleeps, lookup, posts, outcome) {
      CallIsUnique(c.hint, c.options, send, sleeps, lookup, n, w.phase.outcome, posts, outcome);
    }
  }

  // ---------------------------------------------------------------- the server's rule

  predicate IsMade(w: World, k: nat) {
    k < |w.fates| && w.fates[k] == Made
  }

  /** At most one request made the party; who made or found it, it is there; and the caller was told the truth. */
  ghost predicate Sound(c: Setting, w: World) {
    && |w.answers| <= |w.fates|
    && (forall i: nat, j: nat :: IsMade(w, i) && IsMade(w, j) ==> i == j)
    && (forall k :: 0 <= k < |w.fates| && w.fates[k] != Pending ==> Own(c) in w.parties)
    && (forall k :: 0 <= k < |w.answers| ==> Truthful(c, w.answers[k], w.fates[k]))
    && (w.phase == LookingUp ==> w.answers != [] && AlreadyExists(w.answers[|w.answers| - 1]))
    && (w.listing.Listed? ==> Own(c) in w.listing.parties && forall p :: p in w.listing.parties ==> p in w.parties)
  }

  lemma SoundStep(c: Setting, w: World, step: Step)
    requires Validated(c.options) && Shape(c, w) && Sound(c, w) && Enabled(c, w, step)
    ensures Sound(c, Apply(c, w, step))
  {
    var v := Apply(c, w, step);
    if step.CarryOut? {
      forall k | 0 <= k < |v.answers| ensures Truthful(c, v.answers[k], v.fates[k]) {
        assert Truthful(c, w.answers[k], w.fates[k]);
      }
      forall i: nat, j: nat | IsMade(v, i) && IsMade(v, j) ensures i == j {
        assert i != step.request ==> IsMade(w, i);
        assert j != step.request ==> IsMade(w, j);
      }
    } else if step.Send? {
      assert forall k: nat :: IsMade(v, k) ==> IsMade(w, k);
    } else {
      assert forall k: nat :: IsMade(v, k) ==> IsMade(w, k);
    }
  }

  lemma SoundAlways(c: Setting, parties: set<string>, steps: seq<Step>)
    requires Validated(c.options) && Run(Server(c), Start(parties), steps)
    ensures var w := After(Server(c), Start(parties), steps); Shape(c, w) && Sound(c, w)
  {
    forall w, step | Shape(c, w) && Sound(c, w) && Enabled(c, w, step)
      ensures Shape(c, Apply(c, w, step)) && Sound(c, Apply(c, w, step))
    {
      ShapeStep(c, w, step);
      SoundStep(c, w, step);
    }
    Always(Server(c), w => Shape(c, w) && Sound(c, w), Start(parties), steps);
  }

  /** However many requests are sent, and whoever else uses the hint, at most one makes the party or is told so. */
  lemma AtMostOneRequestMakesTheParty(c: Setting, parties: set<string>, steps: seq<Step>, i: nat, j: nat)
    requires Validated(c.options) && Run(Server(c), Start(parties), steps)
    ensures var w := After(Server(c), Start(parties), steps);
            && |w.fates| <= c.options.maxAttempts
            && (IsMade(w, i) && IsMade(w, j) ==> i == j)
            && (i < |w.answers| && IsSuccess(w.answers[i]) ==> IsMade(w, i))
  {
    SoundAlways(c, parties, steps);
  }

  /**
    The party returned is the one the last request made, if it was told so, and otherwise the first one listed
    with the hint's prefix.
   */
  lemma WhichPartyIsReturned(c: Setting, parties: set<string>, steps: seq<Step>)
    requires Validated(c.options) && Run(Server(c), Start(parties), steps)
    requires After(Server(c), Start(parties), steps).phase.Returned?
    requires After(Server(c), Start(parties), steps).phase.outcome.Allocated?
    ensures var w := After(Server(c), Start(parties), steps);
            && w.answers != [] && |w.fates| == |w.answers|
            && var last, party := |w.answers| - 1, w.phase.outcome.party;
               && party in w.parties
               && if IsSuccess(w.answers[last]) then IsMade(w, last) && party == Own(c)
                  else
                    && AlreadyExists(w.answers[last]) && !IsMade(w, last) && last > 0 && w.listing.Listed?
                    && FindPartyByHint(c.hint, w.listing.parties) == Some(party)
  {
    SoundAlways(c, parties, steps);
    var w := After(Server(c), Start(parties), steps);
    assert Truthful(c, w.answers[|w.answers| - 1], w.fates[|w.answers| - 1]);
  }

  // ---------------------------------------------------------------- with an unused hint

  ghost function WithHint(c: Setting, parties: set<string>): set<string> {
    set p | p in parties && PartyPrefix(c.hint) <= p
  }

  ghost predicate MadeByNow(w: World) {
    exists k: nat :: IsMade(w, k)
  }

  /** The one party with the hint is the call's own, and it is there exactly when a request made it. */
  ghost predicate Unshared(c: Setting, w: World) {
    WithHint(c, w.parties) == if MadeByNow(w) then {Own(c)} else {}
  }

  lemma OwnHasTheHint(c: Setting, parties: set<string>)
    ensures Own(c) in WithHint(c, parties) <==> Own(c) in parties
    ensures WithHint(c, parties + {Own(c)}) == WithHint(c, parties) + {Own(c)}
  {
  }

  lemma UnsharedStep(c: Setting, w: World, step: Step)
    requires Sound(c, w) && Unshared(c, w) && Alone(c).enabled(w, step)
    ensures Unshared(c, Apply(c, w, step))
  {
    var v := Apply(c, w, step);
    OwnHasTheHint(c, w.parties);
    if step.CarryOut? {
      assert Own(c) !in w.parties ==> IsMade(v, step.request);
      assert forall k: nat :: IsMade(w, k) ==> IsMade(v, k);
      assert forall k: nat :: k != step.request && IsMade(v, k) ==> IsMade(w, k);
    } else {
      assert forall k: nat :: IsMade(v, k) <==> IsMade(w, k);
      assert WithHint(c, v.parties) == WithHint(c, w.parties);
    }
  }

  lemma AloneAlways(c: Setting, parties: set<string>, steps: seq<Step>)
    requires Validated(c.options) && WithHint(c, parties) == {} && Run(Alone(c), Start(parties), steps)
    ensures var w := After(Alone(c), Start(parties), steps); Shape(c, w) && Sound(c, w) && Unshared(c, w)
  {
    forall w, step | Shape(c, w) && Sound(c, w) && Unshared(c, w) && Alone(c).enabled(w, step)
      ensures Shape(c, Apply(c, w, step)) && Sound(c, Apply(c, w, step)) && Unshared(c, Apply(c, w, step))
    {
      ShapeStep(c, w, step);
      SoundStep(c, w, step);
      UnsharedStep(c, w, step);
    }
    assert !MadeByNow(Start(parties));
    Always(Alone(c), w => Shape(c, w) && Sound(c, w) && Unshared(c, w), Start(parties), steps);
  }

  /**
    With a hint nobody else uses, a normal return means that exactly one request made a party, that no other
    party has the hint, then or later, and that it is the one returned.
   */
  lemma ExactlyOnce(c: Setting, parties: set<string>, steps: seq<Step>)
    requires Validated(c.options) && WithHint(c, parties) == {} && Run(Alone(c), Start(parties), steps)
    ensures var w := After(Alone(c), Start(parties), steps);
            w.phase.Returned? && w.phase.outcome.Allocated? ==>
              && w.phase.outcome.party == Own(c)
              && WithHint(c, w.parties) == {Own(c)}
              && exists k: nat :: IsMade(w, k) && forall j: nat :: IsMade(w, j) ==> j == k
  {
    AloneAlways(c, parties, steps);
    var w := After(Alone(c), Start(parties), steps);
    if w.phase.Returned? && w.phase.outcome.Allocated? {
      var party := w.phase.outcome.party;
      assert Truthful(c, w.answers[|w.answers| - 1], w.fates[|w.answers| - 1]);
      OwnHasTheHint(c, w.parties);
      assert party in WithHint(c, w.parties);
      assert MadeByNow(w);
    }
  }

  /**
    It returns normally iff its last answer is a readable success, or says that the party exists and the lookup
    answers: a lost answer to a request that made the party never becomes a refusal.
   */
  lemma ReturnsIff(c: Setting, parties: set<string>, steps: seq<Step>)
    requires Validated(c.options) && WithHint(c, parties) == {} && Run(Alone(c), Start(parties), steps)
    ensures var w := After(Alone(c), Start(parties), steps);
            w.phase.Returned? ==>
              && w.answers != []
              && var last := w.answers[|w.answers| - 1];
                 w.phase.outcome.Allocated? <==>
                   (IsSuccess(last) && last.party.Some?) || (AlreadyExists(last) && w.listing.Listed?)
  {
    AloneAlways(c, parties, steps);
    var w := After(Alone(c), Start(parties), steps);
    if w.phase.Returned? && AlreadyExists(w.answers[|w.answers| - 1]) {
      var last := |w.answers| - 1;
      assert Truthful(c, w.answers[last], w.fates[last]);
      OwnHasTheHint(c, w.parties);
      var k: nat :| IsMade(w, k);
      assert k != last;
    }
  }

  // ---------------------------------------------------------------- with a hint that was taken

  ghost predicate Taken(c: Setting, w: World) {
    Own(c) in w.parties && !MadeByNow(w)
  }

  lemma TakenStep(c: Setting, w: World, step: Step)
    requires Taken(c, w) && Enabled(c, w, step)
    ensures Taken(c, Apply(c, w, step))
  {
    assert forall k: nat :: IsMade(Apply(c, w, step), k) ==> IsMade(w, k);
  }

  /**
    When the party existed before the call, no request makes it, and the call returns normally iff its first
    answer was inconclusive, its last says that the party exists, and the lookup answers. So a conclusive first
    answer fails the call, and a lost one can make it return somebody else's party.
   */
  lemma TakenHintIff(c: Setting, parties: set<string>, steps: seq<Step>)
    requires Validated(c.options) && Own(c) in parties && Run(Server(c), Start(parties), steps)
    ensures var w := After(Server(c), Start(parties), steps);
            && !MadeByNow(w)
            && (w.phase.Returned? ==>
                  && w.answers != []
                  && (w.phase.outcome.Allocated? <==>
                        Inconclusive(w.answers[0]) && AlreadyExists(w.answers[|w.answers| - 1]) && w.listing.Listed?)
                  && (!Inconclusive(w.answers[0]) ==> |w.answers| == 1 && w.phase.outcome.Failed?))
  {
    SoundAlways(c, parties, steps);
    forall w, step | Taken(c, w) && Enabled(c, w, step) ensures Taken(c, Apply(c, w, step)) {
      TakenStep(c, w, step);
    }
    Always(Server(c), w => Taken(c, w), Start(parties), steps);
    var w := After(Server(c), Start(parties), steps);
    if w.phase.Returned? {
      var last := |w.answers| - 1;
      assert Truthful(c, w.answers[last], w.fates[last]) && !IsMade(w, last);
      assert last > 0 ==> Inconclusive(w.answers[0]);
    }
  }

  // ---------------------------------------------------------------- runs that show it

  /** An answer that says the party exists. */
  const EXISTS := Answered(400, PARTY_ALREADY_EXISTS, None)

  lemma ExistsSaysSo()
    ensures AlreadyExists(EXISTS) && !IsSuccess(EXISTS) && !Inconclusive(EXISTS)
  {
    assert OccursAt(PARTY_ALREADY_EXISTS, PARTY_ALREADY_EXISTS, 0);
  }

  /** The first request times out after it was carried out; the second finds the party, and a listing is read. */
  lemma LostThenFound(c: Setting, parties: set<string>, listing: Listing) returns (steps: seq<Step>, w: World)
    requires c.options.maxAttempts >= 2 && listing.Listed? && Shows(c, listing, parties + {Own(c)})
    ensures Run(Server(c), Start(parties), steps) && After(Server(c), Start(parties), steps) == w
    ensures w.parties == parties + {Own(c)} && |w.fates| == 2
    ensures w.fates[0] == if Own(c) in parties then Existed else Made
    ensures w.phase == Returned(Conclude(c.hint, EXISTS, false, listing))
  {
    ExistsSaysSo();
    var w0 := Start(parties);
    steps, w := Lost(c, parties);
    steps, w := Then(Server(c), w0, steps, Send);
    steps, w := Then(Server(c), w0, steps, CarryOut(1));
    assert w.fates[1] == Existed;
    steps, w := Then(Server(c), w0, steps, Reply(EXISTS));
    assert w.answers == [TimedOut, EXISTS];
    steps, w := Then(Server(c), w0, steps, Lookup(listing));
  }

  lemma Lost(c: Setting, parties: set<string>) returns (steps: seq<Step>, w: World)
    requires c.options.maxAttempts >= 2
    ensures Run(Server(c), Start(parties), steps) && After(Server(c), Start(parties), steps) == w
    ensures var fate := if Own(c) in parties then Existed else Made;
            w == World(parties + {Own(c)}, [fate], Ready, [TimedOut], false, LookupFailed)
  {
    var w0 := Start(parties);
    steps, w := Then(Server(c), w0, [], Send);
    steps, w := Then(Server(c), w0, steps, CarryOut(0));
    assert w.parties == parties + {Own(c)};
    steps, w := Then(Server(c), w0, steps, Reply(TimedOut));
    steps, w := Then(Server(c), w0, steps, EndPause);
  }

  /** One lost answer is enough: with a hint that was taken, the call returns a party that it did not make. */
  lemma TakenHintIsReturned(c: Setting) returns (steps: seq<Step>)
    requires c.options.maxAttempts >= 2
    ensures Run(Server(c), Start({Own(c)}), steps)
    ensures After(Server(c), Start({Own(c)}), steps).phase == Returned(Allocated(Own(c)))
    ensures !IsMade(After(Server(c), Start({Own(c)}), steps), 0)
  {
    ExistsSaysSo();
    var w;
    steps, w := LostThenFound(c, {Own(c)}, Listed([Own(c)]));
    assert FindPartyByHint(c.hint, [Own(c)]) == Some(Own(c));
  }

  /** With the hint held under another namespace, it can return that party although a request of its own made one. */
  lemma OtherNamespaceIsReturned(c: Setting, other: string) returns (steps: seq<Step>)
    requires c.options.maxAttempts >= 2 && PartyPrefix(c.hint) <= other && other != Own(c)
    ensures Run(Server(c), Start({other}), steps)
    ensures After(Server(c), Start({other}), steps).phase == Returned(Allocated(other))
    ensures IsMade(After(Server(c), Start({other}), steps), 0)
  {
    ExistsSaysSo();
    var w;
    var listing := Listed([other, Own(c)]);
    assert Shows(c, listing, {other} + {Own(c)}) by {
      assert other in listing.parties && Own(c) in listing.parties;
    }
    steps, w := LostThenFound(c, {other}, listing);
    assert FindPartyByHint(c.hint, [other, Own(c)]) == Some(other);
  }

  /** Every one of the first `n` requests but the last was lost, and the first one made the party. */
  lemma {:induction false} TimesOut(c: Setting, n: nat) returns (steps: seq<Step>, w: World)
    requires 1 <= n <= c.options.maxAttempts
    ensures Run(Alone(c), Start({}), steps) && After(Alone(c), Start({}), steps) == w
    ensures w.phase == Waiting && |w.fates| == n && |w.answers| == n - 1 && !w.cancelled
    ensures IsMade(w, 0) && Own(c) in w.parties
  {
    if n == 1 {
      steps, w := Then(Alone(c), Start({}), [], Send);
      steps, w := Then(Alone(c), Start({}), steps, CarryOut(0));
    } else {
      steps, w := TimesOut(c, n - 1);
      steps, w := Then(Alone(c), Start({}), steps, Reply(TimedOut));
      steps, w := Then(Alone(c), Start({}), steps, EndPause);
      steps, w := Then(Alone(c), Start({}), steps, Send);
    }
  }

  /** A call that fails may leave a party behind: it never got an answer, and yet it was carried out. */
  lemma FailureMayLeaveAParty(c: Setting) returns (steps: seq<Step>)
    requires Validated(c.options)
    ensures Run(Alone(c), Start({}), steps)
    ensures After(Alone(c), Start({}), steps).phase == Returned(Failed(OutOfTime))
    ensures Own(c) in After(Alone(c), Start({}), steps).parties
  {
    var w;
    steps, w := TimesOut(c, c.options.maxAttempts);
    steps, w := Then(Alone(c), Start({}), steps, Reply(TimedOut));
  }

  /**
    Exactly when: with the hint to itself, a call leaves its party behind, however it ended or has got so far, if and
    only if one of its requests was carried out.
   */
  lemma LeavesAPartyIff(c: Setting, parties: set<string>, steps: seq<Step>)
    requires Validated(c.options) && WithHint(c, parties) == {} && Run(Alone(c), Start(parties), steps)
    ensures var w := After(Alone(c), Start(parties), steps);
            Own(c) in w.parties <==> exists k :: 0 <= k < |w.fates| && w.fates[k] != Pending
  {
    AloneAlways(c, parties, steps);
    var w := After(Alone(c), Start(parties), steps);
    OwnHasTheHint(c, w.parties);
    if Own(c) in w.parties {
      assert MadeByNow(w);
      var k: nat :| IsMade(w, k);
      assert w.fates[k] != Pending;
    }
  }
}
