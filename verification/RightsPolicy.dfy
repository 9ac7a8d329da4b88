/** Which of a ledger user's rights a prune keeps, which it revokes, and when it refuses to run. */
module RightsPolicy {
  import opened Common

  const ADMIN_KIND := "ParticipantAdmin"
  const ACT_AS_KIND := "CanActAs"
  const READ_AS_KIND := "CanReadAs"

  /** One entry of a user's rights list; `raw` is the participant's own document for it. */
  datatype Right = Right(raw: string, kind: string, party: string)

  datatype Identity = Identity(kind: string, party: string)

  function IdentityOf(right: Right): Identity {
    Identity(right.kind, right.party)
  }

  /** Rights are told apart by kind and party, and by nothing else. */
  lemma IdentityIff(a: Right, b: Right)
    ensures IdentityOf(a) == IdentityOf(b) <==> a.kind == b.kind && a.party == b.party
  {
  }

  function IdentitiesOf(rights: seq<Right>): set<Identity> {
    set right | right in rights :: IdentityOf(right)
  }

  datatype Policy = Policy(partyPrefix: string, maxRevoke: int, preserveReadAs: bool)

  // ---------------------------------------------------------------- prefixes

  /** The first place where "::" occurs, or the length of the text when it does not. */
  function Separator(text: string): (i: nat)
    ensures i <= |text|
    ensures i < |text| ==> i + 1 < |text| && text[i] == ':' && text[i + 1] == ':'
    ensures forall k :: 0 <= k < i && k + 1 < |text| ==> text[k] != ':' || text[k + 1] != ':'
  {
    if |text| < 2 then |text|
    else if text[0] == ':' && text[1] == ':' then 0
    else 1 + Separator(text[1..])
  }

  predicate HasSeparator(text: string) {
    Separator(text) < |text|
  }

  /** The part of a party id before its namespace. */
  function Hint(party: string): string {
    party[..Separator(party)]
  }

  function NewPolicy(partyPrefix: string, maxRevoke: int, preserveReadAs: bool): Option<Policy> {
    if partyPrefix != "" && !HasSeparator(partyPrefix) then None
    else Some(Policy(partyPrefix, maxRevoke, preserveReadAs))
  }

  /** A prefix names one hint when every party it matches has that hint. */
  ghost predicate NamesOneHint(prefix: string) {
    forall party, other :: prefix <= party && prefix <= other ==> Hint(party) == Hint(other)
  }

  lemma SeparatorOfExtension(prefix: string, party: string)
    requires HasSeparator(prefix) && prefix <= party
    ensures Separator(party) == Separator(prefix)
  {
    var i, j := Separator(prefix), Separator(party);
    assert forall k :: 0 <= k < |prefix| ==> party[k] == prefix[k];
    assert party[i] == ':' && party[i + 1] == ':';
  }

  /** The rule is exact: apart from the empty prefix, those admitted are the ones that match one hint's parties only. */
  lemma PrefixRuleIsExact(prefix: string, maxRevoke: int, preserveReadAs: bool)
    ensures NewPolicy(prefix, maxRevoke, preserveReadAs).Some? <==> prefix == "" || NamesOneHint(prefix)
    ensures NewPolicy(prefix, maxRevoke, preserveReadAs) in {None, Some(Policy(prefix, maxRevoke, preserveReadAs))}
    ensures NamesOneHint(prefix) <==> HasSeparator(prefix)
  {
    if HasSeparator(prefix) {
      forall party | prefix <= party ensures Hint(party) == Hint(prefix) {
        SeparatorOfExtension(prefix, party);
      }
    } else {
      var a, b := prefix + "x::", prefix + "y::";
      OwnHint(prefix, 'x');
      OwnHint(prefix, 'y');
      assert prefix <= a && prefix <= b;
      assert (prefix + "x")[|prefix|] != (prefix + "y")[|prefix|];
    }
  }

  lemma OwnHint(prefix: string, c: char)
    requires !HasSeparator(prefix) && c != ':'
    ensures Hint(prefix + [c] + "::") == prefix + [c]
  {
    var party := prefix + [c] + "::";
    var n := |prefix| + 1;
    assert party[n] == ':' && party[n + 1] == ':';
    forall k | 0 <= k < n ensures party[k] != ':' || party[k + 1] != ':' {
      if k + 1 < |prefix| {
        assert party[k] == prefix[k] && party[k + 1] == prefix[k + 1];
      } else {
        assert party[|prefix|] == c;
      }
    }
    assert Separator(party) == n;
  }

  // ---------------------------------------------------------------- plans

  predicate Preserves(policy: Policy, right: Right) {
    if right.kind == ADMIN_KIND then true
    else if policy.partyPrefix == "" || !(policy.partyPrefix <= right.party) then false
    else if right.kind == ACT_AS_KIND then true
    else policy.preserveReadAs && right.kind == READ_AS_KIND
  }

  datatype Plan = Plan(keep: seq<Right>, revoke: seq<Right>)

  datatype Refusal = NoRefusal | NoAdminRight | NoOwnPartyRight | TooManyToRevoke

  /** The entries of `held`, in order, that the policy preserves (or does not). */
  function Split(held: seq<Right>, policy: Policy, preserved: bool): (part: seq<Right>)
    ensures forall r :: r in part <==> r in held && (Preserves(policy, r) <==> preserved)
    ensures |part| <= |held|
  {
    if held == [] then []
    else
      var init, last := held[..|held| - 1], held[|held| - 1];
      assert held == init + [last];
      if Preserves(policy, last) <==> preserved then Split(init, policy, preserved) + [last]
      else Split(init, policy, preserved)
  }

  function PlanOf(held: seq<Right>, policy: Policy): Plan {
    Plan(Split(held, policy, true), Split(held, policy, false))
  }

  method Classify(held: seq<Right>, policy: Policy) returns (plan: Plan)
    ensures plan == PlanOf(held, policy)
  {
    plan := Plan([], []);
    for i := 0 to |held|
      invariant plan == PlanOf(held[..i], policy)
    {
      assert held[..i + 1][..i] == held[..i];
      if Preserves(policy, held[i]) {
        plan := plan.(keep := plan.keep + [held[i]]);
        continue;
      }
      plan := plan.(revoke := plan.revoke + [held[i]]);
    }
    assert held[..|held|] == held;
  }

  lemma SplitOfOneMore(held: seq<Right>, right: Right, policy: Policy, preserved: bool)
    ensures Split(held + [right], policy, preserved) ==
              if Preserves(policy, right) <==> preserved then Split(held, policy, preserved) + [right]
              else Split(held, policy, preserved)
  {
    assert (held + [right])[..|held|] == held;
  }

  /** Every right keeps all its occurrences on one side, the one the policy says, and has none on the other. */
  lemma {:induction false} ClassifyPartitions(held: seq<Right>, policy: Policy, right: Right)
    ensures var plan := PlanOf(held, policy);
            if Preserves(policy, right)
            then multiset(plan.keep)[right] == multiset(held)[right] && right !in plan.revoke
            else multiset(plan.revoke)[right] == multiset(held)[right] && right !in plan.keep
  {
    if held != [] {
      var init, last := held[..|held| - 1], held[|held| - 1];
      ClassifyPartitions(init, policy, right);
      assert held == init + [last];
      SplitOfOneMore(init, last, policy, true);
      SplitOfOneMore(init, last, policy, false);
    }
  }

  predicate Keeps(plan: Plan, kind: string) {
    exists i :: 0 <= i < |plan.keep| && plan.keep[i].kind == kind
  }

  function Validate(plan: Plan, policy: Policy): Refusal {
    if !Keeps(plan, ADMIN_KIND) then NoAdminRight
    else if !Keeps(plan, ACT_AS_KIND) then NoOwnPartyRight
    else if |plan.revoke| > policy.maxRevoke then TooManyToRevoke
    else NoRefusal
  }

  /** A live plan passes exactly when the user is an admin acting as the preserved party and the sweep is within bounds. */
  lemma ValidateIff(held: seq<Right>, policy: Policy)
    ensures Validate(PlanOf(held, policy), policy) == NoRefusal <==>
            && (exists r :: r in held && r.kind == ADMIN_KIND)
            && (exists r :: r in held && r.kind == ACT_AS_KIND && policy.partyPrefix != "" && policy.partyPrefix <= r.party)
            && |PlanOf(held, policy).revoke| <= policy.maxRevoke
  {
    var plan := PlanOf(held, policy);
    assert Keeps(plan, ADMIN_KIND) <==> exists r :: r in held && r.kind == ADMIN_KIND by {
      if r :| r in held && r.kind == ADMIN_KIND {
        assert r in plan.keep;
      }
    }
    assert Keeps(plan, ACT_AS_KIND) <==>
           exists r :: r in held && r.kind == ACT_AS_KIND && policy.partyPrefix != "" && policy.partyPrefix <= r.party by {
      if r :| r in held && r.kind == ACT_AS_KIND && policy.partyPrefix != "" && policy.partyPrefix <= r.party {
        assert r in plan.keep;
      }
      if i :| 0 <= i < |plan.keep| && plan.keep[i].kind == ACT_AS_KIND {
        assert plan.keep[i] in plan.keep;
      }
    }
  }

  /** A refused plan is refused for the first of three reasons that holds. */
  lemma RefusedBecause(plan: Plan, policy: Policy)
    ensures Validate(plan, policy) == NoAdminRight <==> forall r :: r in plan.keep ==> r.kind != "ParticipantAdmin"
    ensures Validate(plan, policy) == NoOwnPartyRight <==>
            && (exists r :: r in plan.keep && r.kind == "ParticipantAdmin")
            && (forall r :: r in plan.keep ==> r.kind != "CanActAs")
  {
    assert forall i :: 0 <= i < |plan.keep| ==> plan.keep[i] in plan.keep;
    assert forall kind :: Keeps(plan, kind) <==> exists r :: r in plan.keep && r.kind == kind;
  }

  /** The rights `live` would revoke that `consented` did not list, told apart by identity. */
  method NewSince(live: Plan, consented: Plan) returns (added: seq<Right>)
    ensures forall r :: r in added <==> r in live.revoke && IdentityOf(r) !in IdentitiesOf(consented.revoke)
    ensures added == [] <==> IdentitiesOf(live.revoke) <= IdentitiesOf(consented.revoke)
  {
    var agreed: map<Identity, bool> := map[];
    for i := 0 to |consented.revoke|
      invariant agreed.Keys == IdentitiesOf(consented.revoke[..i])
    {
      agreed := agreed[IdentityOf(consented.revoke[i]) := true];
      assert consented.revoke[..i + 1] == consented.revoke[..i] + [consented.revoke[i]];
    }
    assert consented.revoke[..|consented.revoke|] == consented.revoke;
    added := [];
    for i := 0 to |live.revoke|
      invariant forall r :: r in added <==> r in live.revoke[..i] && IdentityOf(r) !in IdentitiesOf(consented.revoke)
    {
      if IdentityOf(live.revoke[i]) !in agreed {
        added := added + [live.revoke[i]];
      }
      assert live.revoke[..i + 1] == live.revoke[..i] + [live.revoke[i]];
    }
    assert live.revoke[..|live.revoke|] == live.revoke;
    if added != [] {
      assert added[0] in added;
      assert IdentityOf(added[0]) in IdentitiesOf(live.revoke);
    }
  }
}
