/** Raising a wallet's balance to a target: the price of the open round, the tap, and the three-tap loop. */
module Funding {
  import opened Common
  import opened Decimal
  import opened Retry

  const MAX_FUNDING_TAPS: nat := 3

  // ---------------------------------------------------------------- the price of the open round

  /** A mining round as served: `opensAt` is None when its text is no timestamp. */
  datatype Round = Round(price: string, opensAt: Option<int>)

  datatype PriceResult = Price(text: string) | UnreadableRound | NothingOpened | BadPrice(text: string)

  predicate Readable(rounds: seq<Round>) {
    forall i :: 0 <= i < |rounds| ==> rounds[i].opensAt.Some?
  }

  predicate Opened(rounds: seq<Round>, now: int, i: nat)
    requires Readable(rounds)
  {
    i < |rounds| && rounds[i].opensAt.value <= now
  }

  /** The round the scan holds after the first `n`: an empty price text makes the next opened round win. */
  function Chosen(rounds: seq<Round>, now: int, n: nat): (chosen: Option<nat>)
    requires Readable(rounds) && n <= |rounds|
    ensures chosen.Some? ==> chosen.value < n && Opened(rounds, now, chosen.value)
  {
    if n == 0 then None
    else
      var before := Chosen(rounds, now, n - 1);
      var opensAt := rounds[n - 1].opensAt.value;
      if opensAt > now
         || (before.Some? && rounds[before.value].price != "" && opensAt <= rounds[before.value].opensAt.value)
      then before else Some(n - 1)
  }

  function PriceOf(rounds: seq<Round>, now: int): PriceResult {
    if !Readable(rounds) then UnreadableRound
    else
      var chosen := Chosen(rounds, now, |rounds|);
      if chosen == None || rounds[chosen.value].price == "" then NothingOpened
      else
        var text := rounds[chosen.value].price;
        if IsDecimal(text) && Value(text) > 0.0 then Price(text) else BadPrice(text)
  }

  method AmuletPrice(rounds: seq<Round>, now: int) returns (result: PriceResult)
    ensures result == PriceOf(rounds, now)
    ensures result.Price? ==> IsDecimal(result.text) && Value(result.text) > 0.0
  {
    var latestOpen := 0;
    var price := "";
    ghost var chosen: Option<nat> := None;
    for i := 0 to |rounds|
      invariant forall k :: 0 <= k < i ==> rounds[k].opensAt.Some?
      invariant Readable(rounds[..i])
      invariant chosen == Chosen(rounds[..i], now, i)
      invariant price == if chosen.Some? then rounds[chosen.value].price else ""
      invariant chosen.Some? ==> latestOpen == rounds[chosen.value].opensAt.value
    {
      if rounds[i].opensAt == None {
        return UnreadableRound;
      }
      var opensAt := rounds[i].opensAt.value;
      ChosenOfPrefix(rounds[..i + 1], now, i);
      assert rounds[..i + 1][..i] == rounds[..i];
      if opensAt > now || (price != "" && !(opensAt > latestOpen)) {
        continue;
      }
      latestOpen, price := opensAt, rounds[i].price;
      chosen := Some(i);
    }
    assert rounds[..|rounds|] == rounds;
    if price == "" {
      return NothingOpened;
    }
    if !IsDecimal(price) || !(Value(price) > 0.0) {
      return BadPrice(price);
    }
    result := Price(price);
  }

  lemma {:induction false} ChosenOfPrefix(rounds: seq<Round>, now: int, n: nat)
    requires Readable(rounds) && n <= |rounds|
    ensures Readable(rounds[..n]) && Chosen(rounds, now, n) == Chosen(rounds[..n], now, n)
  {
    ChosenIgnoresRest(rounds, rounds[..n], now, n);
  }

  lemma {:induction false} ChosenIgnoresRest(a: seq<Round>, b: seq<Round>, now: int, n: nat)
    requires Readable(a) && Readable(b) && n <= |a| && n <= |b| && a[..n] == b[..n]
    ensures Chosen(a, now, n) == Chosen(b, now, n)
  {
    if n > 0 {
      assert forall k :: 0 <= k < n ==> a[k] == a[..n][k] == b[..n][k] == b[k];
      assert a[..n - 1] == b[..n - 1];
      ChosenIgnoresRest(a, b, now, n - 1);
    }
  }

  /** The latest round that has opened, and the first listed of those. */
  ghost predicate LatestOpened(rounds: seq<Round>, now: int, latest: nat)
    requires Readable(rounds)
  {
    && Opened(rounds, now, latest)
    && forall i: nat :: Opened(rounds, now, i) ==>
         rounds[i].opensAt.value <= rounds[latest].opensAt.value &&
         (i < latest ==> rounds[i].opensAt.value < rounds[latest].opensAt.value)
  }

  /**
    The documented choice, the latest round that has opened, is made exactly when that round has a price
    text or no opened round is listed behind it.
   */
  lemma PicksLatestIff(rounds: seq<Round>, now: int, latest: nat)
    requires Readable(rounds) && LatestOpened(rounds, now, latest)
    ensures Chosen(rounds, now, |rounds|) == Some(latest) <==>
            rounds[latest].price != "" || forall i: nat :: i > latest ==> !Opened(rounds, now, i)
  {
    if rounds[latest].price != "" {
      LatestStays(rounds, now, latest, |rounds|);
    } else if next: nat :| next > latest && Opened(rounds, now, next) {
      LatestIsPassed(rounds, now, latest, next, |rounds|);
    } else {
      LatestStays(rounds, now, latest, |rounds|);
    }
  }

  lemma {:induction false} LatestStays(rounds: seq<Round>, now: int, latest: nat, n: nat)
    requires Readable(rounds) && LatestOpened(rounds, now, latest) && latest < n <= |rounds|
    requires rounds[latest].price != "" || forall i: nat :: i > latest ==> !Opened(rounds, now, i)
    ensures Chosen(rounds, now, n) == Some(latest)
    decreases n
  {
    if n > latest + 1 {
      LatestStays(rounds, now, latest, n - 1);
      assert Opened(rounds, now, n - 1) <==> rounds[n - 1].opensAt.value <= now;
    } else {
      assert Opened(rounds, now, latest);
    }
  }

  lemma {:induction false} LatestIsPassed(rounds: seq<Round>, now: int, latest: nat, next: nat, n: nat)
    requires Readable(rounds) && LatestOpened(rounds, now, latest) && latest < next < n <= |rounds|
    requires rounds[latest].price == "" && Opened(rounds, now, next)
    ensures Chosen(rounds, now, n).Some? && Chosen(rounds, now, n).value > latest
    decreases n
  {
    if n > next + 1 {
      LatestIsPassed(rounds, now, latest, next, n - 1);
    } else {
      AtLeastLatest(rounds, now, latest, next);
    }
  }

  lemma {:induction false} AtLeastLatest(rounds: seq<Round>, now: int, latest: nat, n: nat)
    requires Readable(rounds) && LatestOpened(rounds, now, latest) && latest < n <= |rounds|
    requires rounds[latest].price == ""
    ensures Chosen(rounds, now, n).Some? && Chosen(rounds, now, n).value >= latest
    decreases n
  {
    if n > latest + 1 {
      AtLeastLatest(rounds, now, latest, n - 1);
    } else {
      assert Opened(rounds, now, latest);
    }
  }

  /** An empty price text on the latest round makes an older round's price win, even over a newer one already held. */
  lemma EmptyPriceRevivesAnOldRound()
    ensures var rounds := [Round("2", Some(9)), Round("", Some(10)), Round("1", Some(3))];
            PriceOf(rounds, 20) == Price("1")
  {
    var rounds := [Round("2", Some(9)), Round("", Some(10)), Round("1", Some(3))];
    assert Chosen(rounds, 20, 1) == Some(0);
    assert Chosen(rounds, 20, 2) == Some(1);
    assert Chosen(rounds, 20, 3) == Some(2);
    assert NatText(1) == "1";
    DotAfterDigits("1", "");
    assert "1" + "" == "1";
  }

  /**
    The price returned is that of the round that opened last, of those opened by `now` and the first listed of
    several, if its price text is not empty; it is an error if that text is no positive decimal.
   */
  lemma PriceOfLatest(rounds: seq<Round>, now: int, latest: nat)
    requires forall i :: 0 <= i < |rounds| ==> rounds[i].opensAt.Some?
    requires latest < |rounds| && rounds[latest].opensAt.value <= now && rounds[latest].price != ""
    requires forall i :: 0 <= i < |rounds| && rounds[i].opensAt.value <= now ==>
               rounds[i].opensAt.value < rounds[latest].opensAt.value ||
               (rounds[i].opensAt == rounds[latest].opensAt && latest <= i)
    ensures var text := rounds[latest].price;
            match ParseDecimal(text)
            case Some(value) => PriceOf(rounds, now) == if value > 0.0 then Price(text) else BadPrice(text)
            case None => PriceOf(rounds, now) == BadPrice(text)
  {
    assert LatestOpened(rounds, now, latest);
    PicksLatestIff(rounds, now, latest);
  }

  /** There is no price when a round's timestamp cannot be read, or when no round has opened by `now`. */
  lemma NoPrice(rounds: seq<Round>, now: int)
    ensures PriceOf(rounds, now) == UnreadableRound <==> exists i :: 0 <= i < |rounds| && rounds[i].opensAt == None
    ensures (forall i :: 0 <= i < |rounds| ==> rounds[i].opensAt.Some? && rounds[i].opensAt.value > now) ==>
              PriceOf(rounds, now) == NothingOpened
  {
    if Readable(rounds) {
      var chosen := Chosen(rounds, now, |rounds|);
      assert chosen.Some? ==> Opened(rounds, now, chosen.value);
    }
  }

  // ---------------------------------------------------------------- one tap

  /** What one tap would meet: the answers to its sends, its sleeps, and the contract id in a 2xx body. */
  datatype TapCall = TapCall(send: nat -> Reply, sleeps: nat -> bool, contractId: Option<string>)

  datatype TapOutcome = Minted(contractId: string) | RejectedAmount | TapFailed

  function TapSends(budget: int, call: TapCall): nat {
    Sends(budget, RequestNeverProcessed, call.send, call.sleeps)
  }

  /** What a tap makes of the reply its run ends with. */
  function TapVerdict(call: TapCall, got: Reply, stop: Stop): TapOutcome {
    if got.failure != NoFailure || stop == SleepFailed || got.status < 200 || got.status >= 300 then TapFailed
    else if call.contractId == None || call.contractId.value == "" then TapFailed
    else Minted(call.contractId.value)
  }

  function TapOf(budget: int, call: TapCall, amount: string): TapOutcome {
    if ValidateAmount(amount) != Accepted then RejectedAmount
    else
      RunIsPrescribed(budget, RequestNeverProcessed, call.send, call.sleeps, 1, NotRetryable);
      var sends := TapSends(budget, call);
      TapVerdict(call, call.send(sends - 1), StopOf(budget, RequestNeverProcessed, call.send, call.sleeps, sends))
  }

  method Tap(budget: int, call: TapCall, amount: string) returns (outcome: TapOutcome, sends: nat)
    ensures outcome == TapOf(budget, call, amount)
    ensures sends == if ValidateAmount(amount) == Accepted then TapSends(budget, call) else 0
  {
    if ValidateAmount(amount) != Accepted {
      return RejectedAmount, 0;
    }
    var got, stop, slept;
    got, sends, stop, slept := Run(budget, RequestNeverProcessed, call.send, call.sleeps);
    RunIsPrescribed(budget, RequestNeverProcessed, call.send, call.sleeps, sends, stop);
    outcome := TapVerdict(call, got, stop);
  }

  lemma TapRuns(budget: int, call: TapCall) returns (sends: nat, stop: Stop)
    ensures sends == TapSends(budget, call) >= 1
    ensures stop == StopOf(budget, RequestNeverProcessed, call.send, call.sleeps, sends)
    ensures RunOf(budget, RequestNeverProcessed, call.send, call.sleeps, sends, stop)
  {
    sends := TapSends(budget, call);
    RunIsPrescribed(budget, RequestNeverProcessed, call.send, call.sleeps, sends, NotRetryable);
    stop := StopOf(budget, RequestNeverProcessed, call.send, call.sleeps, sends);
    RunIsPrescribed(budget, RequestNeverProcessed, call.send, call.sleeps, sends, stop);
  }

  /**
    A tap reports a mint if and only if its amount is valid and its last answer, whatever was retried before, is a
    2xx with a contract id; and it reports that id.
   */
  lemma MintedIff(budget: int, call: TapCall, amount: string)
    ensures TapSends(budget, call) >= 1
    ensures var last := call.send(TapSends(budget, call) - 1);
            (TapOf(budget, call, amount).Minted? <==>
              && ValidateAmount(amount) == Accepted && last.failure == NoFailure && 200 <= last.status < 300
              && call.contractId.Some? && call.contractId.value != "")
    ensures TapOf(budget, call, amount).Minted? ==> Some(TapOf(budget, call, amount).contractId) == call.contractId
  {
    var sends, stop := TapRuns(budget, call);
    OnlyUnprocessedIsRetried(budget, call.send, call.sleeps, sends, stop);
  }

  /**
    If refused connections and 429 answers never commit, one tap mints at most once, whatever the server
    answers; and it reports a mint only after a reply that was not retried.
   */
  lemma TapMintsAtMostOnce(budget: int, call: TapCall, amount: string, commits: nat -> bool)
    requires Unprocessed(call.send, commits)
    ensures Commits(commits, TapSends(budget, call)) <= 1
    ensures TapOf(budget, call, amount).Minted? ==>
              var sends := TapSends(budget, call);
              sends >= 1 && 200 <= call.send(sends - 1).status < 300 &&
              Commits(commits, sends) == if commits(sends - 1) then 1 else 0
  {
    var sends, stop := TapRuns(budget, call);
    MintedIff(budget, call, amount);
    AtMostOneCommit(budget, call.send, call.sleeps, commits, sends, stop);
  }

  // ---------------------------------------------------------------- the funding loop

  type Positive = r: real | r > 0.0 witness 1.0

  /** A decimal text together with what it is worth. */
  datatype Amount = Amount(text: string, value: real)
  datatype Quote = Quote(text: string, value: Positive)

  /** Everything the loop meets, decoded: the k-th balance, price and tap; None is a read that failed. */
  datatype Wallet = Wallet(
    budget: int,
    balance: nat -> Option<Amount>,
    price: nat -> Option<Quote>,
    tap: nat -> TapCall)

  datatype Funded =
    | BadTarget
    | BalanceFailed
    | PriceFailed
    | TapRefused
    | Enough(balance: Amount)
    | StillShort(balance: Amount)

  /** A balance is usable only if it arrives and is a decimal. */
  function ReadBalance(reply: Option<string>): (amount: Option<Amount>)
    ensures amount.Some? <==> reply.Some? && ParseDecimal(reply.value).Some?
    ensures amount.Some? ==>
              Some(amount.value.text) == reply && ParseDecimal(amount.value.text) == Some(amount.value.value)
  {
    if reply.Some? && IsDecimal(reply.value) then Some(Amount(reply.value, Value(reply.value))) else None
  }

  function ReadPrice(reply: Option<seq<Round>>, now: int): (quote: Option<Quote>)
    ensures quote.Some? <==> reply.Some? && PriceOf(reply.value, now).Price?
    ensures quote.Some? ==> PriceOf(reply.value, now) == Price(quote.value.text)
    ensures quote.Some? ==> IsDecimal(quote.value.text) && quote.value.value == Value(quote.value.text)
  {
    if reply == None then None
    else
      var result := PriceOf(reply.value, now);
      if result.Price? then Some(Quote(result.text, Value(result.text))) else None
  }

  /** The wallet the loop sees through the servers' raw replies and the clock. */
  function Observed(budget: int, balances: nat -> Option<string>, rounds: nat -> Option<seq<Round>>, clock: nat -> int,
                    tap: nat -> TapCall): Wallet
  {
    Wallet(budget, (k: nat) => ReadBalance(balances(k)), (k: nat) => ReadPrice(rounds(k), clock(k)), tap)
  }

  /** Its k-th reads are those of the k-th replies, the price at the time of its own read. */
  lemma ObservedReads(budget: int, balances: nat -> Option<string>, rounds: nat -> Option<seq<Round>>,
                      clock: nat -> int, tap: nat -> TapCall, k: nat)
    ensures var wallet := Observed(budget, balances, rounds, clock, tap);
            && (wallet.balance(k).Some? <==> balances(k).Some? && ParseDecimal(balances(k).value).Some?)
            && (wallet.balance(k).Some? ==> Some(wallet.balance(k).value.text) == balances(k))
            && (wallet.price(k).Some? <==> rounds(k).Some? && PriceOf(rounds(k).value, clock(k)).Price?)
            && (wallet.price(k).Some? ==> PriceOf(rounds(k).value, clock(k)) == Price(wallet.price(k).value.text))
            && wallet.tap(k) == tap(k) && wallet.budget == budget
  {
  }

  /** The USD worth of the gap between `held` and `target` at `price`. */
  function GapUSD(target: real, held: real, price: Positive): (usd: real)
    requires held < target
    ensures usd > 0.0
  {
    (target - held) * price
  }

  function TapAmount(target: real, held: real, price: Positive): string
    requires held < target
  {
    RoundUpUSD(GapUSD(target, held, price))
  }

  /** How the loop ends, and all the amounts it taps, once it has tapped those in `tapped`. */
  function Fund(wallet: Wallet, target: real, tapped: seq<string>): (outcome: (Funded, seq<string>))
    requires |tapped| <= MAX_FUNDING_TAPS
    ensures |tapped| <= |outcome.1| <= MAX_FUNDING_TAPS
    ensures outcome.0.Enough? || outcome.0.StillShort? ==> wallet.balance(|outcome.1|) == Some(outcome.0.balance)
    ensures outcome.0.Enough? ==> outcome.0.balance.value >= target
    ensures outcome.0.StillShort? ==> outcome.0.balance.value < target && |outcome.1| == MAX_FUNDING_TAPS
    decreases MAX_FUNDING_TAPS - |tapped|
  {
    var taps := |tapped|;
    if wallet.balance(taps) == None then (BalanceFailed, tapped)
    else
      var balance := wallet.balance(taps).value;
      if balance.value >= target then (Enough(balance), tapped)
      else if taps == MAX_FUNDING_TAPS then (StillShort(balance), tapped)
      else if wallet.price(taps) == None then (PriceFailed, tapped)
      else
        var amount := TapAmount(target, balance.value, wallet.price(taps).value.value);
        if TapOf(wallet.budget, wallet.tap(taps), amount).Minted? then Fund(wallet, target, tapped + [amount])
        else (TapRefused, tapped + [amount])
  }

  method TapAtLeast(wallet: Wallet, target: string) returns (result: Funded, tapped: seq<string>)
    ensures ValidateAmount(target) != Accepted ==> result == BadTarget && tapped == []
    ensures ValidateAmount(target) == Accepted ==> (result, tapped) == Fund(wallet, Value(target), [])
    ensures |tapped| <= 3
    ensures result.Enough? ==> IsDecimal(target) && result.balance.value >= Value(target)
    ensures result.Enough? ==> wallet.balance(|tapped|) == Some(result.balance)
  {
    tapped := [];
    if ValidateAmount(target) != Accepted {
      return BadTarget, [];
    }
    var targetAmulet := Value(target);
    if wallet.balance(0) == None {
      return BalanceFailed, [];
    }
    var balance := wallet.balance(0).value;
    var taps := 0;
    ghost var outcome := Fund(wallet, targetAmulet, []);
    while true
      invariant taps == |tapped| <= MAX_FUNDING_TAPS
      invariant wallet.balance(taps) == Some(balance)
      invariant outcome == Fund(wallet, targetAmulet, tapped)
      decreases MAX_FUNDING_TAPS - taps
    {
      if balance.value >= targetAmulet {
        return Enough(balance), tapped;
      }
      if taps == MAX_FUNDING_TAPS {
        return StillShort(balance), tapped;
      }
      if wallet.price(taps) == None {
        return PriceFailed, tapped;
      }
      var usd := TapAmount(targetAmulet, balance.value, wallet.price(taps).value.value);
      var outcome, sends := Tap(wallet.budget, wallet.tap(taps), usd);
      tapped, taps := tapped + [usd], taps + 1;
      if !outcome.Minted? {
        return TapRefused, tapped;
      }
      if wallet.balance(taps) == None {
        return BalanceFailed, tapped;
      }
      balance := wallet.balance(taps).value;
    }
  }

  // ---------------------------------------------------------------- how the loop ends

  /** The i-th turn taps: the balance was read and is short, and the price was read. */
  predicate Short(wallet: Wallet, target: real, i: nat) {
    wallet.balance(i).Some? && wallet.balance(i).value.value < target && wallet.price(i).Some?
  }

  /** What it taps: its own gap at its own price, rounded up. */
  function TurnAmount(wallet: Wallet, target: real, i: nat): string {
    if Short(wallet, target, i) then TapAmount(target, wallet.balance(i).value.value, wallet.price(i).value.value) else ""
  }

  predicate Tops(wallet: Wallet, target: real, i: nat) {
    Short(wallet, target, i) && TapOf(wallet.budget, wallet.tap(i), TurnAmount(wallet, target, i)).Minted?
  }

  /** The first `n` turns all tapped and minted. */
  predicate Through(wallet: Wallet, target: real, n: nat) {
    forall i: nat :: i < n ==> Tops(wallet, target, i)
  }

  function Amounts(wallet: Wallet, target: real, n: nat): (amounts: seq<string>)
    ensures |amounts| == n && forall i :: 0 <= i < n ==> amounts[i] == TurnAmount(wallet, target, i)
  {
    if n == 0 then [] else Amounts(wallet, target, n - 1) + [TurnAmount(wallet, target, n - 1)]
  }

  /** The loop ends in its n-th turn, counted from zero, with that result after tapping those amounts. */
  predicate EndsAt(wallet: Wallet, target: real, n: nat, result: Funded, tapped: seq<string>) {
    && n <= 3 && Through(wallet, target, n)
    && match wallet.balance(n)
       case None => result == BalanceFailed && tapped == Amounts(wallet, target, n)
       case Some(balance) =>
         if balance.value >= target then result == Enough(balance) && tapped == Amounts(wallet, target, n)
         else if n == 3 then result == StillShort(balance) && tapped == Amounts(wallet, target, n)
         else if wallet.price(n) == None then result == PriceFailed && tapped == Amounts(wallet, target, n)
         else !Tops(wallet, target, n) && result == TapRefused && tapped == Amounts(wallet, target, n + 1)
  }

  lemma TurnIsTaken(wallet: Wallet, target: real, n: nat)
    requires n < 3 && Short(wallet, target, n)
    ensures Fund(wallet, target, Amounts(wallet, target, n)) ==
              if Tops(wallet, target, n) then Fund(wallet, target, Amounts(wallet, target, n + 1))
              else (TapRefused, Amounts(wallet, target, n + 1))
  {
  }

  lemma FundEndsHere(wallet: Wallet, target: real, n: nat)
    requires n <= 3 && Through(wallet, target, n) && (n < 3 ==> !Tops(wallet, target, n))
    ensures var outcome := Fund(wallet, target, Amounts(wallet, target, n));
            EndsAt(wallet, target, n, outcome.0, outcome.1)
  {
    if n < 3 && Short(wallet, target, n) {
      TurnIsTaken(wallet, target, n);
    }
  }

  /** The turns from the n-th on, and where they end. */
  lemma {:induction false} EndIsFound(wallet: Wallet, target: real, n: nat) returns (end: nat)
    requires n <= 3 && Through(wallet, target, n)
    ensures n <= end <= 3 && Through(wallet, target, end) && (end < 3 ==> !Tops(wallet, target, end))
    decreases 3 - n
  {
    end := n;
    if n < 3 && Tops(wallet, target, n) {
      end := EndIsFound(wallet, target, n + 1);
    }
  }

  lemma {:induction false} TurnsAreTaken(wallet: Wallet, target: real, n: nat)
    requires n <= 3 && Through(wallet, target, n)
    ensures Fund(wallet, target, []) == Fund(wallet, target, Amounts(wallet, target, n))
  {
    if n > 0 {
      assert Tops(wallet, target, n - 1);
      TurnsAreTaken(wallet, target, n - 1);
      TurnIsTaken(wallet, target, n - 1);
    }
  }

  lemma EndsOnce(wallet: Wallet, target: real, m: nat, p: Funded, s: seq<string>, n: nat, q: Funded, t: seq<string>)
    requires EndsAt(wallet, target, m, p, s) && EndsAt(wallet, target, n, q, t)
    ensures m == n && p == q && s == t
  {
    assert m < n ==> Tops(wallet, target, m);
    assert n < m ==> Tops(wallet, target, n);
  }

  /**
    How the loop ends, for every wallet: in the one turn in which a read fails, the balance reaches the target,
    a tap is refused, or three taps have been made; with the amounts of the turns up to then.
   */
  lemma FundEndsIff(wallet: Wallet, target: real, result: Funded, tapped: seq<string>)
    ensures Fund(wallet, target, []) == (result, tapped) <==> exists n: nat :: EndsAt(wallet, target, n, result, tapped)
  {
    var end := EndIsFound(wallet, target, 0);
    TurnsAreTaken(wallet, target, end);
    FundEndsHere(wallet, target, end);
    var (r, t) := Fund(wallet, target, []);
    if n: nat :| EndsAt(wallet, target, n, result, tapped) {
      EndsOnce(wallet, target, n, result, tapped, end, r, t);
    }
  }

  /** It succeeds iff some balance it gets to reaches the target; at once, without a tap, when the first one does. */
  lemma EnoughIff(wallet: Wallet, target: real)
    ensures Fund(wallet, target, []).0.Enough? <==>
            exists n: nat :: n <= 3 && Through(wallet, target, n) &&
              wallet.balance(n).Some? && wallet.balance(n).value.value >= target
    ensures wallet.balance(0).Some? && wallet.balance(0).value.value >= target ==>
              Fund(wallet, target, []) == (Enough(wallet.balance(0).value), [])
  {
    var (r, t) := Fund(wallet, target, []);
    FundEndsIff(wallet, target, r, t);
    if n: nat :| n <= 3 && Through(wallet, target, n) &&
                 wallet.balance(n).Some? && wallet.balance(n).value.value >= target {
      var amounts := Amounts(wallet, target, n);
      assert EndsAt(wallet, target, n, Enough(wallet.balance(n).value), amounts);
      FundEndsIff(wallet, target, Enough(wallet.balance(n).value), amounts);
    }
  }

  // ---------------------------------------------------------------- what the loop promises

  /** Over raw replies: the text returned is the last one read, and its own decimal value reaches the target, or not. */
  lemma EnoughIsInTheText(budget: int, balances: nat -> Option<string>, rounds: nat -> Option<seq<Round>>,
                          clock: nat -> int, tap: nat -> TapCall, target: real)
    ensures var (result, tapped) := Fund(Observed(budget, balances, rounds, clock, tap), target, []);
            (result.Enough? ==>
              balances(|tapped|) == Some(result.balance.text) &&
              exists value :: ParseDecimal(result.balance.text) == Some(value) && value >= target) &&
            (result.StillShort? ==>
              balances(|tapped|) == Some(result.balance.text) &&
              exists value :: ParseDecimal(result.balance.text) == Some(value) && value < target)
  {
    var (result, tapped) := Fund(Observed(budget, balances, rounds, clock, tap), target, []);
    if result.Enough? || result.StillShort? {
      assert ReadBalance(balances(|tapped|)) == Some(result.balance);
      assert ParseDecimal(result.balance.text) == Some(result.balance.value);
    }
  }

  /** Mints committed by the first `taps` taps, each counted over all its sends. */
  function TotalCommits(wallet: Wallet, commits: nat -> nat -> bool, taps: nat): nat {
    if taps == 0 then 0
    else TotalCommits(wallet, commits, taps - 1) + Commits(commits(taps - 1), TapSends(wallet.budget, wallet.tap(taps - 1)))
  }

  lemma {:induction false} CommitsPerTap(wallet: Wallet, commits: nat -> nat -> bool, taps: nat)
    requires forall k: nat :: Unprocessed(wallet.tap(k).send, commits(k))
    ensures TotalCommits(wallet, commits, taps) <= taps
  {
    if taps > 0 {
      CommitsPerTap(wallet, commits, taps - 1);
      assert Unprocessed(wallet.tap(taps - 1).send, commits(taps - 1));
      TapMintsAtMostOnce(wallet.budget, wallet.tap(taps - 1), "", commits(taps - 1));
    }
  }

  /** Whatever the servers answer and however often requests are resent, one funding run mints at most three times. */
  lemma FundingMintsAtMostThrice(wallet: Wallet, target: real, commits: nat -> nat -> bool)
    requires forall k: nat :: Unprocessed(wallet.tap(k).send, commits(k))
    ensures TotalCommits(wallet, commits, |Fund(wallet, target, []).1|) <= 3
  {
    CommitsPerTap(wallet, commits, |Fund(wallet, target, []).1|);
  }

  /** Every amount the loop taps is one the wallet API accepts. */
  lemma TapAmountIsAccepted(target: real, held: real, price: Positive)
    requires held < target
    ensures ValidateAmount(TapAmount(target, held, price)) == Accepted
  {
    RoundUpUSDIsExact(GapUSD(target, held, price));
  }

  function Credited(usd: real, price: Positive): real {
    usd / price
  }

  /** What the amount tapped buys at the price that was read. */
  function Credit(target: real, held: real, price: Positive): real
    requires held < target
  {
    TapAmountIsAccepted(target, held, price);
    Credited(Value(TapAmount(target, held, price)), price)
  }

  /** Crediting `credit` reaches the target and overshoots it by less than 10^-10 USD worth of Amulet. */
  ghost predicate ClosesGap(target: real, held: real, credit: real, price: Positive) {
    target <= held + credit < target + 1.0 / (DIVISOR as real * price)
  }

  lemma QuotientBetween(x: real, price: Positive, unit: real)
    requires 0.0 <= x * price < unit
    ensures 0.0 <= x < unit / price
  {
    assert x == x * price / price;
  }

  lemma RoundedGap(gap: real, price: Positive, exact: real, usd: real)
    requires exact == gap * price && exact <= usd < exact + 1.0 / DIVISOR as real
    ensures gap <= usd / price < gap + 1.0 / (DIVISOR as real * price)
  {
    var unit := 1.0 / DIVISOR as real;
    var credit := usd / price;
    assert credit * price == usd;
    assert (credit - gap) * price == usd - exact;
    QuotientBetween(credit - gap, price, unit);
    assert unit / price == 1.0 / (DIVISOR as real * price);
  }

  lemma CreditedTap(target: real, held: real, price: Positive, usd: real)
    requires held < target
    requires GapUSD(target, held, price) <= usd < GapUSD(target, held, price) + 1.0 / DIVISOR as real
    ensures ClosesGap(target, held, Credited(usd, price), price)
  {
    RoundedGap(target - held, price, GapUSD(target, held, price), usd);
  }

  /** One tap credited in full closes the gap exactly, up to the rounding of the last place. */
  lemma CreditClosesTheGap(target: real, held: real, price: Positive)
    requires held < target
    ensures ClosesGap(target, held, Credit(target, held, price), price)
  {
    var exact := GapUSD(target, held, price);
    RoundUpUSDIsExact(exact);
    CreditedTap(target, held, price, Value(RoundUpUSD(exact)));
  }

  lemma CreditReaches(target: real, held: real, price: Positive)
    requires held < target
    ensures held + Credit(target, held, price) >= target
  {
    CreditClosesTheGap(target, held, price);
  }

  /** A tap is due at the k-th read, and the reads around it succeed. */
  predicate TapDue(wallet: Wallet, target: real, k: nat) {
    && wallet.balance(k).Some? && wallet.balance(k + 1).Some? && wallet.price(k).Some?
    && wallet.balance(k).value.value < target
  }

  /** The wallet credits each tap at least at the price that was read, and loses nothing meanwhile. */
  ghost predicate CreditsInFull(wallet: Wallet, target: real) {
    forall k: nat :: TapDue(wallet, target, k) ==>
      var held, price := wallet.balance(k).value.value, wallet.price(k).value.value;
      wallet.balance(k + 1).value.value >= held + Credit(target, held, price)
  }

  lemma CreditedRead(wallet: Wallet, target: real, k: nat)
    requires CreditsInFull(wallet, target) && TapDue(wallet, target, k)
    ensures wallet.balance(k + 1).value.value >= target
  {
    CreditReaches(target, wallet.balance(k).value.value, wallet.price(k).value.value);
  }

  /** The loop's first turn, when it taps. */
  lemma FirstTap(wallet: Wallet, target: real) returns (amount: string)
    requires wallet.balance(0).Some? && wallet.price(0).Some? && wallet.balance(0).value.value < target
    ensures amount == TapAmount(target, wallet.balance(0).value.value, wallet.price(0).value.value)
    ensures Fund(wallet, target, []) ==
              if TapOf(wallet.budget, wallet.tap(0), amount).Minted? then Fund(wallet, target, [amount])
              else (TapRefused, [amount])
  {
    amount := TapAmount(target, wallet.balance(0).value.value, wallet.price(0).value.value);
    assert [] + [amount] == [amount];
  }

  lemma SecondRead(wallet: Wallet, target: real, amount: string)
    requires wallet.balance(1).Some? ==> wallet.balance(1).value.value >= target
    ensures Fund(wallet, target, [amount]) ==
              if wallet.balance(1) == None then (BalanceFailed, [amount]) else (Enough(wallet.balance(1).value), [amount])
  {
  }

  /**
    With such a wallet the loop never falls short and never taps twice: it taps once if the first balance
    is below target, and not at all otherwise.
   */
  lemma OneTapSuffices(wallet: Wallet, target: real)
    requires CreditsInFull(wallet, target)
    ensures var (result, tapped) := Fund(wallet, target, []);
            !result.StillShort? && |tapped| <= 1 &&
            (result.Enough? ==>
              (|tapped| == 1 <==> wallet.balance(0).value.value < target) && Some(result.balance) == wallet.balance(|tapped|))
  {
    if wallet.balance(0).Some? && wallet.price(0).Some? && wallet.balance(0).value.value < target {
      var amount := FirstTap(wallet, target);
      if wallet.balance(1).Some? {
        CreditedRead(wallet, target, 0);
      }
      SecondRead(wallet, target, amount);
    }
  }

  /** When the credit is exactly the amount tapped, the one tap overshoots by less than 10^-10 USD worth of Amulet. */
  lemma ExactCreditBarelyOvershoots(wallet: Wallet, target: real)
    requires wallet.price(0).Some? && wallet.balance(0).Some? && wallet.balance(0).value.value < target
    requires wallet.balance(1).Some? ==>
               wallet.balance(1).value.value ==
                 wallet.balance(0).value.value + Credit(target, wallet.balance(0).value.value, wallet.price(0).value.value)
    ensures var (result, tapped) := Fund(wallet, target, []);
            |tapped| == 1 &&
            (result.Enough? ==>
              target <= result.balance.value < target + 1.0 / (DIVISOR as real * wallet.price(0).value.value))
  {
    CreditClosesTheGap(target, wallet.balance(0).value.value, wallet.price(0).value.value);
    var amount := FirstTap(wallet, target);
    SecondRead(wallet, target, amount);
  }
}
