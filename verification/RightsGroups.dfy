/** The summary a plan is printed with: revocable rights counted by kind and party family. */
module RightsGroups {
  import opened Common
  import opened Text
  import opened RightsPolicy

  // ---------------------------------------------------------------- party families

  /** How many lower-case hex digits `s` starts with. */
  function HexRun(s: string): (n: nat)
    ensures n <= |s| && (forall i :: 0 <= i < n ==> IsHexDigit(s[i])) && (n < |s| ==> !IsHexDigit(s[n]))
  {
    if s != "" && IsHexDigit(s[0]) then 1 + HexRun(s[1..]) else 0
  }

  /** `s` is a random suffix and a namespace: a dash, eight or more hex digits, "::", and no further line. */
  predicate IsEphemeralSuffix(s: string) {
    && s != "" && s[0] == '-'
    && var n := HexRun(s[1..]);
       n >= 8 && "::" <= s[1 + n..] && '\n' !in s[3 + n..]
  }

  /** The leftmost place from which `s` is an ephemeral suffix, or its length. */
  function SuffixStart(s: string): (i: nat)
    ensures i <= |s| && (i < |s| ==> IsEphemeralSuffix(s[i..]))
    ensures forall k :: 0 <= k < i ==> !IsEphemeralSuffix(s[k..])
  {
    if s == "" then 0
    else if IsEphemeralSuffix(s) then assert s[0..] == s; 0
    else
      var rest := SuffixStart(s[1..]);
      assert forall k :: 1 <= k <= |s| ==> s[k..] == s[1..][k - 1..];
      assert s[0..] == s;
      1 + rest
  }

  function Family(party: string): string {
    if party == "" then ""
    else if SuffixStart(party) < |party| then party[..SuffixStart(party)] + "-*"
    else Hint(party)
  }

  /** The parties one suite allocates under a hint with random suffixes all fall into the family of that hint. */
  lemma SuiteIsOneFamily(hint: string, hex: string, namespace: string)
    requires !HasSeparator(hint) && '\n' !in namespace
    requires |hex| >= 8 && forall i :: 0 <= i < |hex| ==> IsHexDigit(hex[i])
    ensures Family(hint + ("-" + hex + "::" + namespace)) == hint + "-*"
  {
    var suffix := "-" + hex + "::" + namespace;
    var party := hint + suffix;
    SuffixIsEphemeral(hex, namespace);
    assert party[|hint|..] == suffix;
    forall k | 0 <= k < |hint| ensures !IsEphemeralSuffix(party[k..]) {
      NoSuffixInside(hint, suffix, k);
    }
    assert party[..|hint|] == hint;
  }

  lemma SuffixIsEphemeral(hex: string, namespace: string)
    requires '\n' !in namespace
    requires |hex| >= 8 && forall i :: 0 <= i < |hex| ==> IsHexDigit(hex[i])
    ensures IsEphemeralSuffix("-" + hex + "::" + namespace)
  {
    var suffix := "-" + hex + "::" + namespace;
    var n := |hex|;
    RunEndsAtSeparator(hex, namespace);
    assert suffix[1..] == hex + "::" + namespace;
    assert suffix[1 + n..] == "::" + namespace;
    assert suffix[3 + n..] == namespace;
  }

  lemma RunEndsAtSeparator(hex: string, namespace: string)
    requires forall i :: 0 <= i < |hex| ==> IsHexDigit(hex[i])
    ensures HexRun(hex + "::" + namespace) == |hex|
  {
    var s := hex + "::" + namespace;
    assert s[|hex|] == ':';
    assert forall i :: 0 <= i < |hex| ==> s[i] == hex[i];
  }

  /** A suffix cannot start inside a hint: its hex run would have to cross the dash, or its "::" be in the hint. */
  lemma NoSuffixInside(hint: string, suffix: string, k: nat)
    requires !HasSeparator(hint) && k < |hint| && suffix != "" && suffix[0] == '-'
    ensures !IsEphemeralSuffix((hint + suffix)[k..])
  {
    var party := hint + suffix;
    var s := party[k..];
    var n := HexRun(s[1..]);
    var dash := |hint| - k - 1;
    assert s[1..][dash] == party[|hint|] == '-';
    assert n <= dash;
    var at := k + 1 + n;
    assert s[1 + n] == party[at];
    assert 2 + n < |s| ==> s[2 + n] == party[at + 1];
    assert at + 1 < |hint| ==> party[at] == hint[at] && party[at + 1] == hint[at + 1];
  }

  /** A party is `stem`, a dash, eight or more hex digits, "::" and a namespace of one line. */
  ghost predicate HasSuffix(party: string, stem: string) {
    exists hex, namespace :: IsSuffixed(party, stem, hex, namespace)
  }

  predicate IsSuffixed(party: string, stem: string, hex: string, namespace: string) {
    && party == stem + ("-" + hex + "::" + namespace)
    && |hex| >= 8 && (forall i :: 0 <= i < |hex| ==> '0' <= hex[i] <= '9' || 'a' <= hex[i] <= 'f')
    && '\n' !in namespace
  }

  lemma SuffixAt(party: string, k: nat)
    requires k <= |party|
    ensures IsEphemeralSuffix(party[k..]) <==> HasSuffix(party, party[..k])
  {
    if IsEphemeralSuffix(party[k..]) {
      SuffixInParts(party[..k], party[k..]);
      assert party == party[..k] + party[k..];
    }
    if HasSuffix(party, party[..k]) {
      var hex, namespace :| IsSuffixed(party, party[..k], hex, namespace);
      SuffixIsEphemeral(hex, namespace);
      assert party[k..] == "-" + hex + "::" + namespace;
    }
  }

  lemma SuffixInParts(stem: string, s: string)
    requires IsEphemeralSuffix(s)
    ensures HasSuffix(stem + s, stem)
  {
    var n := HexRun(s[1..]);
    var hex, rest, namespace := s[1..1 + n], s[1 + n..], s[3 + n..];
    assert rest == "::" + namespace;
    assert s == "-" + hex + rest;
    assert hex == s[1..][..n];
    Associates("-" + hex, "::", namespace);
    assert IsSuffixed(stem + s, stem, hex, namespace);
  }

  /**
    The family of a party: its shortest stem before such a suffix and "-*", if it has any; and otherwise the part
    before its first "::", or all of it.
   */
  lemma FamilyIff(party: string, stem: string)
    ensures (HasSuffix(party, stem) && forall other :: HasSuffix(party, other) ==> |stem| <= |other|) ==>
              Family(party) == stem + "-*"
    ensures (forall other :: !HasSuffix(party, other)) ==> Family(party) == Hint(party)
  {
    var i := SuffixStart(party);
    if i < |party| {
      SuffixAt(party, i);
    }
    if HasSuffix(party, stem) {
      var hex, namespace :| IsSuffixed(party, stem, hex, namespace);
      assert party[..|stem|] == stem;
      SuffixAt(party, |stem|);
    }
  }

  // ---------------------------------------------------------------- the order of the summary

  datatype Key = Key(kind: string, family: string)
  datatype Group = Group(key: Key, count: nat)

  predicate Less(a: string, b: string) {
    b != "" && (a == "" || a[0] < b[0] || (a[0] == b[0] && Less(a[1..], b[1..])))
  }

  /** The usual order of texts: the first place where they differ decides, and a proper prefix comes first. */
  lemma {:induction false} LessIff(a: string, b: string)
    ensures Less(a, b) <==> exists i: nat :: DecidedAt(a, b, i)
    decreases |a|
  {
    if a != "" && b != "" && a[0] == b[0] {
      LessIff(a[1..], b[1..]);
      if i: nat :| DecidedAt(a[1..], b[1..], i) {
        assert a[..i + 1] == [a[0]] + a[1..][..i] && b[..i + 1] == [b[0]] + b[1..][..i];
        assert DecidedAt(a, b, i + 1);
      }
      if i: nat :| DecidedAt(a, b, i) {
        assert a[..i] == [a[0]] + a[1..][..i - 1] && b[..i] == [b[0]] + b[1..][..i - 1];
        assert a[1..][..i - 1] == a[..i][1..] && b[1..][..i - 1] == b[..i][1..];
        assert DecidedAt(a[1..], b[1..], i - 1);
      }
    } else if Less(a, b) {
      assert DecidedAt(a, b, 0);
    }
  }

  predicate DecidedAt(a: string, b: string, i: nat) {
    i <= |a| && i < |b| && a[..i] == b[..i] && (i < |a| ==> a[i] < b[i])
  }

  lemma {:induction false} LessIsTotal(a: string, b: string)
    ensures (Less(a, b) && !Less(b, a) && a != b) || (Less(b, a) && !Less(a, b) && a != b)
            || (a == b && !Less(a, b) && !Less(b, a))
    decreases |a|
  {
    if a != "" && b != "" && a[0] == b[0] {
      LessIsTotal(a[1..], b[1..]);
      assert a == [a[0]] + a[1..] && b == [b[0]] + b[1..];
    }
  }

  lemma {:induction false} LessIsTransitive(a: string, b: string, c: string)
    requires Less(a, b) && Less(b, c)
    ensures Less(a, c)
    decreases |a|
  {
    if a != "" && a[0] == b[0] == c[0] {
      LessIsTransitive(a[1..], b[1..], c[1..]);
    }
  }

  /** Most numerous first, then by kind, then by family. */
  predicate Before(g: Group, h: Group) {
    || g.count > h.count
    || (g.count == h.count && Less(g.key.kind, h.key.kind))
    || (g.count == h.count && g.key.kind == h.key.kind && Less(g.key.family, h.key.family))
  }

  lemma BeforeIsTotal(g: Group, h: Group)
    ensures (Before(g, h) && !Before(h, g) && g != h) || (Before(h, g) && !Before(g, h) && g != h)
            || (g == h && !Before(g, h))
  {
    LessIsTotal(g.key.kind, h.key.kind);
    LessIsTotal(g.key.family, h.key.family);
  }

  lemma BeforeIsTransitive(g: Group, h: Group, i: Group)
    requires Before(g, h) && Before(h, i)
    ensures Before(g, i)
  {
    if g.count == h.count == i.count {
      if Less(g.key.kind, h.key.kind) && Less(h.key.kind, i.key.kind) {
        LessIsTransitive(g.key.kind, h.key.kind, i.key.kind);
      } else if g.key.kind == h.key.kind == i.key.kind {
        LessIsTransitive(g.key.family, h.key.family, i.key.family);
      }
    }
  }

  ghost predicate Ordered(groups: seq<Group>) {
    forall i, j :: 0 <= i < j < |groups| ==> Before(groups[i], groups[j])
  }

  // ---------------------------------------------------------------- counting

  function KeyOf(right: Right): Key {
    Key(right.kind, Family(right.party))
  }

  /** Two rights are counted together iff they have the same kind and family. */
  lemma KeyIff(a: Right, b: Right)
    ensures KeyOf(a) == KeyOf(b) <==> a.kind == b.kind && Family(a.party) == Family(b.party)
    ensures KeyOf(a).kind == a.kind && KeyOf(a).family == Family(a.party)
  {
  }

  function CountOf(rights: seq<Right>, key: Key): (n: nat)
    ensures n <= |rights|
    ensures n > 0 <==> exists r :: r in rights && KeyOf(r) == key
  {
    if rights == [] then 0
    else
      var init, last := rights[..|rights| - 1], rights[|rights| - 1];
      assert rights == init + [last];
      CountOf(init, key) + if KeyOf(last) == key then 1 else 0
  }

  /** The summary of `rights`: every key they have, once, with its exact count, in order. */
  ghost predicate Summarises(groups: seq<Group>, rights: seq<Right>) {
    && Ordered(groups)
    && (forall g :: g in groups <==> g.count > 0 && g.count == CountOf(rights, g.key))
  }

  /** Insertion by the order; where sort.Slice puts equal elements cannot matter, as there are none. */
  function Insert(group: Group, sorted: seq<Group>): (longer: seq<Group>)
    requires Ordered(sorted) && group !in sorted
    ensures Ordered(longer) && forall g :: g in longer <==> g == group || g in sorted
  {
    if sorted == [] then [group]
    else
      assert forall i :: 0 <= i < |sorted| ==> sorted[i] in sorted;
      BeforeIsTotal(group, sorted[0]);
      if Before(group, sorted[0]) then
        assert forall j :: 0 < j < |sorted| ==> Before(sorted[0], sorted[j]);
        (forall j | 0 <= j < |sorted| ensures Before(group, sorted[j]) {
           if j > 0 { BeforeIsTransitive(group, sorted[0], sorted[j]); }
         }
         [group] + sorted)
      else
        var rest := Insert(group, sorted[1..]);
        assert forall g :: g in rest ==> Before(sorted[0], g);
        [sorted[0]] + rest
  }

  method SortGroups(groups: seq<Group>) returns (sorted: seq<Group>)
    requires NoDuplicates(groups)
    ensures Ordered(sorted) && forall g :: g in sorted <==> g in groups
  {
    sorted := [];
    for i := 0 to |groups|
      invariant Ordered(sorted) && forall g :: g in sorted <==> g in groups[..i]
    {
      assert groups[..i + 1] == groups[..i] + [groups[i]];
      sorted := Insert(groups[i], sorted);
    }
    assert groups[..|groups|] == groups;
  }

  /** The keys present, each with its count. */
  ghost predicate Counts(counts: map<Key, nat>, rights: seq<Right>) {
    forall k :: if k in counts then counts[k] == CountOf(rights, k) > 0 else CountOf(rights, k) == 0
  }

  lemma CountsOneMore(counts: map<Key, nat>, rights: seq<Right>, right: Right)
    requires Counts(counts, rights)
    ensures var key := KeyOf(right);
            Counts(counts[key := (if key in counts then counts[key] else 0) + 1], rights + [right])
  {
    assert (rights + [right])[..|rights|] == rights;
  }

  method CountKeys(rights: seq<Right>) returns (counts: map<Key, nat>)
    ensures forall k :: k in counts <==> CountOf(rights, k) > 0
    ensures forall k :: k in counts ==> counts[k] == CountOf(rights, k)
  {
    counts := map[];
    for i := 0 to |rights|
      invariant Counts(counts, rights[..i])
    {
      CountsOneMore(counts, rights[..i], rights[i]);
      assert rights[..i + 1] == rights[..i] + [rights[i]];
      var key := KeyOf(rights[i]);
      counts := counts[key := (if key in counts then counts[key] else 0) + 1];
    }
    assert rights[..|rights|] == rights;
  }

  /** The map is walked in whatever order. */
  method ListGroups(counts: map<Key, nat>) returns (groups: seq<Group>)
    ensures NoDuplicates(groups)
    ensures forall g :: g in groups <==> g.key in counts && g.count == counts[g.key]
  {
    groups := [];
    var left := counts.Keys;
    while left != {}
      invariant left <= counts.Keys && NoDuplicates(groups)
      invariant forall g :: g in groups <==> g.key in counts.Keys - left && g.count == counts[g.key]
    {
      var key :| key in left;
      left := left - {key};
      groups := groups + [Group(key, counts[key])];
    }
  }

  method RevokeGroups(plan: Plan) returns (groups: seq<Group>)
    ensures Summarises(groups, plan.revoke)
  {
    var counts := CountKeys(plan.revoke);
    var listed := ListGroups(counts);
    groups := SortGroups(listed);
  }

  // ---------------------------------------------------------------- what a summary says

  lemma {:induction false} OrderedIsUnique(a: seq<Group>, b: seq<Group>)
    requires Ordered(a) && Ordered(b) && forall g :: g in a <==> g in b
    ensures a == b
    decreases |a|
  {
    if a == [] {
      EmptyIff(b);
    } else {
      assert a[0] in b && b[0] in a;
      HeadIsFirst(a, b[0]);
      HeadIsFirst(b, a[0]);
      BeforeIsTotal(a[0], b[0]);
      TailHolds(a);
      TailHolds(b);
      OrderedIsUnique(a[1..], b[1..]);
    }
  }

  lemma HeadIsFirst(a: seq<Group>, g: Group)
    requires Ordered(a) && g in a
    ensures g == a[0] || Before(a[0], g)
  {
  }

  lemma TailHolds(a: seq<Group>)
    requires Ordered(a) && a != []
    ensures Ordered(a[1..]) && forall g :: g in a[1..] <==> g in a && g != a[0]
  {
    assert a == [a[0]] + a[1..];
    forall g | g in a[1..] ensures g != a[0] {
      BeforeIsTotal(a[0], g);
    }
  }

  /** In a summary no count is below a later one; equal counts are ordered by kind, and equal kinds by family. */
  lemma SummaryIsRanked(groups: seq<Group>, rights: seq<Right>, i: nat, j: nat)
    requires Summarises(groups, rights) && i < j < |groups|
    ensures groups[i].count >= groups[j].count
    ensures groups[i].count == groups[j].count ==>
              groups[i].key.kind == groups[j].key.kind || Less(groups[i].key.kind, groups[j].key.kind)
    ensures groups[i].count == groups[j].count && groups[i].key.kind == groups[j].key.kind ==>
              Less(groups[i].key.family, groups[j].key.family)
  {
    LessIsTotal(groups[i].key.kind, groups[j].key.kind);
  }

  /** There is one summary: neither the order of the map walk nor the stability of the sort can show. */
  lemma SummaryIsUnique(a: seq<Group>, b: seq<Group>, rights: seq<Right>)
    requires Summarises(a, rights) && Summarises(b, rights)
    ensures a == b
  {
    OrderedIsUnique(a, b);
  }

  function Total(groups: seq<Group>): nat {
    if groups == [] then 0 else groups[0].count + Total(groups[1..])
  }

  /** The rights that have another key. */
  function Others(rights: seq<Right>, key: Key): (rest: seq<Right>)
    ensures |rest| + CountOf(rights, key) == |rights|
    ensures forall k :: k != key ==> CountOf(rest, k) == CountOf(rights, k)
    ensures CountOf(rest, key) == 0
  {
    if rights == [] then []
    else
      var init, last := rights[..|rights| - 1], rights[|rights| - 1];
      var rest := Others(init, key);
      assert (rest + [last])[..|rest|] == rest;
      if KeyOf(last) == key then rest else rest + [last]
  }

  /** The counts of a summary add up to the number of rights it summarises. */
  lemma {:induction false} CountsAddUp(groups: seq<Group>, rights: seq<Right>)
    requires Summarises(groups, rights)
    ensures Total(groups) == |rights|
    decreases |groups|
  {
    if groups == [] {
      forall r | r in rights ensures Group(KeyOf(r), CountOf(rights, KeyOf(r))) in groups {
      }
      EmptyIff(rights);
    } else {
      var first := groups[0];
      assert first in groups;
      TailHolds(groups);
      CountsAddUp(groups[1..], Others(rights, first.key));
    }
  }
}
