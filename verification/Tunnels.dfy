/**
  The rules of the routing table that send whole tunnels to a target: the
  first one that matches decides, and `SetTunnels` rewrites them.
 */
module Tunnels {
  import opened Prelude
  import opened ListField

  /** What a rule matches by beside tunnels. */
  datatype Criteria = Criteria(sourceIPs: string, sourcePorts: string, network: string, destIPs: string, domains: string,
                               ports: string, clients: string, groups: string, oldMatch: string, oldValue: string)

  const NO_CRITERIA := Criteria("", "", "", "", "", "", "", "", "", "")

  /** A row of the rule table; the table is a sequence, in evaluation order. */
  datatype Rule = Rule(id: nat, name: string, enabled: bool, interfaces: string, other: Criteria, tag: string)

  predicate TunnelOnly(r: Rule) {
    r.interfaces != "" && r.other == NO_CRITERIA
  }

  predicate Holds(r: Rule, id: nat) {
    exists v :: v in Split(r.interfaces) && ParseUint(v) == Some(id)
  }

  predicate Sends(r: Rule, id: nat) {
    TunnelOnly(r) && r.enabled && Holds(r, id)
  }

  /** Where a tunnel's traffic goes by the tunnel-only rules: the first that names it. */
  function FirstMatch(rules: seq<Rule>, id: nat): Option<string> {
    if rules == [] then None
    else if Sends(rules[0], id) then Some(rules[0].tag)
    else FirstMatch(rules[1..], id)
  }

  /** How many tunnel-only rules name a tunnel, enabled or not. */
  function Holders(rules: seq<Rule>, id: nat): nat {
    if rules == [] then 0
    else (if TunnelOnly(rules[0]) && Holds(rules[0], id) then 1 else 0) + Holders(rules[1..], id)
  }

  function OwnCount(rules: seq<Rule>, tag: string): nat {
    if rules == [] then 0
    else (if TunnelOnly(rules[0]) && rules[0].tag == tag then 1 else 0) + OwnCount(rules[1..], tag)
  }

  /** The rules with any other criterion: the operator's own. */
  function Operators(rules: seq<Rule>): seq<Rule> {
    if rules == [] then [] else (if TunnelOnly(rules[0]) then [] else [rules[0]]) + Operators(rules[1..])
  }

  /** Every tunnel-only rule names its tunnels the way the panel writes them. */
  predicate AllCanonical(rules: seq<Rule>) {
    forall r, v :: r in rules && TunnelOnly(r) && v in Split(r.interfaces) ==> Canonical(v)
  }

  // ---- the ids asked for, as they are stored ----

  function Insert(l: seq<nat>, n: nat): seq<nat> {
    if l == [] then [n]
    else if n == l[0] then l
    else if n < l[0] then [n] + l
    else [l[0]] + Insert(l[1..], n)
  }

  predicate Sorted(l: seq<nat>) {
    forall i, j :: 0 <= i < j < |l| ==> l[i] < l[j]
  }

  lemma SortedCons(n: nat, l: seq<nat>)
    requires Sorted(l) && forall m :: m in l ==> n < m
    ensures Sorted([n] + l)
  {
    forall i, j | 0 <= i < j < |[n] + l| ensures ([n] + l)[i] < ([n] + l)[j] {
      assert l[j - 1] in l;
    }
  }

  lemma {:induction false} InsertIn(l: seq<nat>, n: nat, m: nat)
    ensures m in Insert(l, n) <==> m in l || m == n
  {
    if l != [] {
      assert l == [l[0]] + l[1..];
      InsertIn(l[1..], n, m);
    }
  }

  lemma {:induction false} InsertSorted(l: seq<nat>, n: nat)
    requires Sorted(l)
    ensures Sorted(Insert(l, n))
  {
    if l == [] || n == l[0] {
    } else if n < l[0] {
      forall m | m in l ensures n < m {
        assert m == l[0] || m in l[1..];
      }
      SortedCons(n, l);
    } else {
      InsertSorted(l[1..], n);
      forall m | m in Insert(l[1..], n) ensures l[0] < m {
        InsertIn(l[1..], n, m);
      }
      SortedCons(l[0], Insert(l[1..], n));
    }
  }

  /** The distinct ids, ascending. */
  function Ascending(ids: seq<nat>): seq<nat> {
    if ids == [] then [] else Insert(Ascending(ids[..|ids| - 1]), ids[|ids| - 1])
  }

  lemma {:induction false} AscendingIn(ids: seq<nat>, m: nat)
    ensures m in Ascending(ids) <==> m in ids
  {
    if ids != [] {
      var init, n := ids[..|ids| - 1], ids[|ids| - 1];
      assert ids == init + [n];
      AscendingIn(init, m);
      InsertIn(Ascending(init), n, m);
    }
  }

  lemma {:induction false} AscendingSorted(ids: seq<nat>)
    ensures Sorted(Ascending(ids))
  {
    if ids != [] {
      AscendingSorted(ids[..|ids| - 1]);
      InsertSorted(Ascending(ids[..|ids| - 1]), ids[|ids| - 1]);
    }
  }

  predicate Ids(ids: seq<nat>) {
    forall id :: id in ids ==> id < UINT64
  }

  function Listed(ids: seq<nat>): seq<string> {
    var a := Ascending(ids);
    seq(|a|, i requires 0 <= i < |a| => Decimal(a[i]))
  }

  /** The stored list names the ids asked for, once each, and can be read back. */
  lemma ListedFacts(ids: seq<nat>)
    requires Ids(ids)
    ensures var l := Listed(ids);
            && Distinct(l) && (forall i :: 0 <= i < |l| ==> Storable(l[i]) && Canonical(l[i]))
            && (forall id: nat :: id < UINT64 ==> (id in ids <==> Decimal(id) in l))
            && (l == [] <==> ids == [])
  {
    var a, l := Ascending(ids), Listed(ids);
    AscendingSorted(ids);
    forall i | 0 <= i < |l| ensures Storable(l[i]) && Canonical(l[i]) && ParseUint(l[i]) == Some(a[i]) {
      AscendingIn(ids, a[i]);
      DecimalRoundTrip(a[i]);
    }
    forall id: nat | id < UINT64 ensures id in ids <==> Decimal(id) in l {
      AscendingIn(ids, id);
      DecimalRoundTrip(id);
      if id in ids {
        var i :| 0 <= i < |a| && a[i] == id;
        assert l[i] == Decimal(id);
      }
    }
    if ids != [] {
      AscendingIn(ids, ids[0]);
    }
  }

  // ---- what SetTunnels makes of the table ----

  function Without(l: seq<string>, want: seq<string>): seq<string> {
    if l == [] then [] else (if l[0] in want then [] else [l[0]]) + Without(l[1..], want)
  }

  lemma {:induction false} WithoutFacts(l: seq<string>, want: seq<string>)
    ensures var r := Without(l, want);
            && (forall v :: v in r <==> v in l && v !in want)
            && |r| <= |l| && (|r| == |l| ==> r == l)
            && (|r| == |l| <==> forall v :: v in l ==> v !in want)
  {
    if l != [] {
      assert l == [l[0]] + l[1..];
      WithoutFacts(l[1..], want);
    }
  }

  /** `setRuleTunnels`: a rule left with none is removed, and one rewritten is enabled. */
  function Rewritten(r: Rule, list: seq<string>): seq<Rule> {
    if list == [] then [] else [r.(interfaces := Join(list), enabled := true)]
  }

  /** Another target's rule, with the wanted tunnels taken out of it. */
  function Relieved(r: Rule, want: seq<string>): seq<Rule> {
    var all := Split(r.interfaces);
    var kept := Without(all, want);
    if |kept| != |all| then Rewritten(r, kept) else [r]
  }

  function Own(rules: seq<Rule>, tag: string): Option<Rule> {
    if rules == [] then None
    else if TunnelOnly(rules[0]) && rules[0].tag == tag then Some(rules[0])
    else Own(rules[1..], tag)
  }

  /** What the walk leaves of one row; `found` says the target's own rule was met before it. */
  function RowAfter(r: Rule, tag: string, want: seq<string>, found: bool): seq<Rule> {
    if !TunnelOnly(r) then [r]
    else if r.tag == tag then (if found then [] else [r])
    else Relieved(r, want)
  }

  /** The table after the walk over it, with the target's own rule (`found` once met) not rewritten yet. */
  function Walked(rules: seq<Rule>, tag: string, want: seq<string>, found: bool): seq<Rule> {
    if rules == [] then []
    else
      RowAfter(rules[0], tag, want, found)
      + Walked(rules[1..], tag, want, found || (TunnelOnly(rules[0]) && rules[0].tag == tag))
  }

  /** The finished table: the own rule holds exactly the list, and is made at the end when there was none. */
  function SetRules(rules: seq<Rule>, tag: string, list: seq<string>, made: Rule, found: bool): seq<Rule> {
    if rules == [] then (if found || list == [] then [] else [made])
    else
      var r := rules[0];
      if !TunnelOnly(r) then [r] + SetRules(rules[1..], tag, list, made, found)
      else if r.tag == tag then (if found then [] else Rewritten(r, list)) + SetRules(rules[1..], tag, list, made, true)
      else Relieved(r, list) + SetRules(rules[1..], tag, list, made, found)
  }

  predicate IsMade(made: Rule, tag: string, list: seq<string>) {
    made.enabled && made.interfaces == Join(list) && made.other == NO_CRITERIA && made.tag == tag
  }

  // ---- one rule at a time ----

  /** A list names a tunnel in one spelling or another. */
  predicate Names(list: seq<string>, id: nat) {
    exists v :: v in list && ParseUint(v) == Some(id)
  }

  predicate GoodList(list: seq<string>) {
    Distinct(list) && forall i :: 0 <= i < |list| ==> Canonical(list[i])
  }

  lemma CanonicalStorable(v: string)
    requires Canonical(v)
    ensures Storable(v)
  {
    DecimalRoundTrip(ParseUint(v).value);
  }

  lemma NamesDecimal(list: seq<string>, id: nat)
    requires GoodList(list) && id < UINT64
    ensures Names(list, id) <==> Decimal(id) in list
  {
    DecimalRoundTrip(id);
    if Names(list, id) {
      var v :| v in list && ParseUint(v) == Some(id);
      assert Canonical(v);
    }
  }

  /** A rewritten rule names exactly the list it was given. */
  lemma RewrittenHolds(r: Rule, list: seq<string>)
    requires Distinct(list) && (forall v :: v in list ==> Storable(v)) && list != [] && r.interfaces == Join(list)
    ensures r.interfaces != "" && Split(r.interfaces) == list
    ensures forall id :: Holds(r, id) <==> Names(list, id)
  {
    SplitJoin(list);
  }

  lemma GoodListStorable(list: seq<string>)
    requires GoodList(list)
    ensures forall v :: v in list ==> Storable(v)
  {
    forall v | v in list ensures Storable(v) {
      CanonicalStorable(v);
    }
  }

  lemma {:induction false} WithoutDistinct(l: seq<string>, want: seq<string>)
    requires Distinct(l)
    ensures Distinct(Without(l, want))
  {
    if l != [] {
      assert Distinct(l[1..]) && l[0] !in l[1..];
      WithoutFacts(l[1..], want);
      WithoutDistinct(l[1..], want);
    }
  }

  /** A rule names a tunnel also in a spelling that is not among the wanted. */
  predicate StillNames(r: Rule, want: seq<string>, id: nat) {
    TunnelOnly(r) && exists v :: v in Split(r.interfaces) && v !in want && ParseUint(v) == Some(id)
  }

  predicate Touched(r: Rule, want: seq<string>) {
    exists v :: v in Split(r.interfaces) && v in want
  }

  /** A disabled rule that is left with tunnels once the wanted ones are taken out of it. */
  predicate Revives(r: Rule, want: seq<string>) {
    && TunnelOnly(r) && !r.enabled && Touched(r, want)
    && (exists v :: v in Split(r.interfaces) && v !in want)
  }

  /** A relieved rule is gone, or names what it named in spellings not wanted, and is enabled if it was or
      is rewritten. */
  lemma RelievedHolds(r: Rule, want: seq<string>, id: nat)
    requires TunnelOnly(r)
    ensures var rs := Relieved(r, want);
            && |rs| <= 1
            && (rs == [] ==> !StillNames(r, want, id))
            && (rs != [] ==>
                  && TunnelOnly(rs[0]) && rs[0].tag == r.tag && rs[0].enabled == (r.enabled || Touched(r, want))
                  && (Holds(rs[0], id) <==> StillNames(r, want, id)))
  {
    var all := Split(r.interfaces);
    var kept := Without(all, want);
    SplitStorable(r.interfaces);
    WithoutFacts(all, want);
    WithoutDistinct(all, want);
    if |kept| != |all| {
      if kept != [] {
        RewrittenHolds(Rewritten(r, kept)[0], kept);
      }
      assert Touched(r, want);
      assert StillNames(r, want, id) <==> Names(kept, id);
    } else {
      assert !Touched(r, want);
    }
  }

  // ---- the whole table ----

  /** Where an other target's rule sends a tunnel once the wanted ones are taken out of it. */
  predicate SendsAfter(r: Rule, tag: string, want: seq<string>, id: nat) {
    r.tag != tag && StillNames(r, want, id) && (r.enabled || Touched(r, want))
  }

  /** The first match in the finished table, told from the table before. */
  function MatchAfter(rules: seq<Rule>, tag: string, list: seq<string>, found: bool, id: nat): Option<string> {
    if rules == [] then (if !found && Names(list, id) then Some(tag) else None)
    else
      var r, rest := rules[0], rules[1..];
      if TunnelOnly(r) && r.tag == tag then
        if !found && Names(list, id) then Some(tag) else MatchAfter(rest, tag, list, true, id)
      else if SendsAfter(r, tag, list, id) then Some(r.tag)
      else MatchAfter(rest, tag, list, found, id)
  }

  /** How often it names a tunnel. */
  function HoldersAfter(rules: seq<Rule>, tag: string, list: seq<string>, found: bool, id: nat): nat {
    if rules == [] then (if !found && Names(list, id) then 1 else 0)
    else
      var r, rest := rules[0], rules[1..];
      if TunnelOnly(r) && r.tag == tag then
        (if !found && Names(list, id) then 1 else 0) + HoldersAfter(rest, tag, list, true, id)
      else (if r.tag != tag && StillNames(r, list, id) then 1 else 0) + HoldersAfter(rest, tag, list, found, id)
  }

  /** What becomes of one row in the finished table. */
  function HeadAfter(r: Rule, tag: string, list: seq<string>, found: bool): seq<Rule> {
    if !TunnelOnly(r) then [r] else if r.tag == tag then (if found then [] else Rewritten(r, list)) else Relieved(r, list)
  }

  lemma SetRulesStep(r: Rule, rest: seq<Rule>, tag: string, list: seq<string>, made: Rule, found: bool)
    ensures SetRules([r] + rest, tag, list, made, found)
         == HeadAfter(r, tag, list, found) + SetRules(rest, tag, list, made, found || (TunnelOnly(r) && r.tag == tag))
  {
    assert ([r] + rest)[1..] == rest;
  }

  lemma HeadHolds(r: Rule, tag: string, list: seq<string>, found: bool, id: nat)
    requires GoodList(list)
    ensures var h := HeadAfter(r, tag, list, found);
            && |h| <= 1
            && (TunnelOnly(r) && r.tag == tag && !found && list != [] ==>
                  h != [] && TunnelOnly(h[0]) && h[0].enabled && h[0].tag == tag && (Holds(h[0], id) <==> Names(list, id)))
            && (TunnelOnly(r) && r.tag == tag && (found || list == []) ==> h == [])
            && (TunnelOnly(r) && r.tag != tag && h == [] ==> !StillNames(r, list, id))
            && (TunnelOnly(r) && r.tag != tag && h != [] ==>
                  && TunnelOnly(h[0]) && h[0].tag == r.tag && h[0].enabled == (r.enabled || Touched(r, list))
                  && (Holds(h[0], id) <==> StillNames(r, list, id)))
            && (!TunnelOnly(r) ==> h == [r])
  {
    GoodListStorable(list);
    if TunnelOnly(r) {
      RelievedHolds(r, list, id);
      if list != [] {
        RewrittenHolds(Rewritten(r, list)[0], list);
      }
    }
  }

  lemma MatchCons(h: seq<Rule>, tail: seq<Rule>, id: nat)
    requires |h| <= 1
    ensures FirstMatch(h + tail, id) == if h != [] && Sends(h[0], id) then Some(h[0].tag) else FirstMatch(tail, id)
    ensures Holders(h + tail, id) == (if h != [] && TunnelOnly(h[0]) && Holds(h[0], id) then 1 else 0) + Holders(tail, id)
  {
    if h == [] {
      assert h + tail == tail;
    } else {
      assert (h + tail)[1..] == tail;
    }
  }

  /** The finished table's first matches and counts are those told from the table before. */
  lemma {:induction false} MatchesAfter(rules: seq<Rule>, tag: string, list: seq<string>, made: Rule, found: bool, id: nat)
    requires GoodList(list) && IsMade(made, tag, list)
    ensures FirstMatch(SetRules(rules, tag, list, made, found), id) == MatchAfter(rules, tag, list, found, id)
    ensures Holders(SetRules(rules, tag, list, made, found), id) == HoldersAfter(rules, tag, list, found, id)
  {
    hide GoodList, Holds, Names, StillNames, Touched, HeadAfter, SetRules;
    if rules == [] {
      MadeAlone(tag, list, made, found, id);
    } else {
      var r, rest := rules[0], rules[1..];
      var found' := found || (TunnelOnly(r) && r.tag == tag);
      assert rules == [r] + rest;
      SetRulesStep(r, rest, tag, list, made, found);
      HeadHolds(r, tag, list, found, id);
      MatchCons(HeadAfter(r, tag, list, found), SetRules(rest, tag, list, made, found'), id);
      MatchesAfter(rest, tag, list, made, found', id);
      NoneNamed(list, id);
      StillTunnelOnly(r, list, id);
    }
  }

  lemma NoneNamed(list: seq<string>, id: nat)
    ensures list == [] ==> !Names(list, id)
  {
  }

  lemma StillTunnelOnly(r: Rule, want: seq<string>, id: nat)
    ensures StillNames(r, want, id) ==> TunnelOnly(r)
  {
  }

  lemma MadeAlone(tag: string, list: seq<string>, made: Rule, found: bool, id: nat)
    requires GoodList(list) && IsMade(made, tag, list)
    ensures FirstMatch(SetRules([], tag, list, made, found), id) == MatchAfter([], tag, list, found, id)
    ensures Holders(SetRules([], tag, list, made, found), id) == HoldersAfter([], tag, list, found, id)
  {
    if !found && list != [] {
      GoodListStorable(list);
      RewrittenHolds(made, list);
      assert [made][1..] == [];
    }
  }

  predicate ShadowsAt(rules: seq<Rule>, tag: string, list: seq<string>, id: nat, i: nat)
    requires i < |rules|
  {
    Own(rules[..i], tag).None? && SendsAfter(rules[i], tag, list, id)
  }

  /** A rule above the target's own names the tunnel in other digits, leading zeros, and is left with it. */
  predicate Shadowed(rules: seq<Rule>, tag: string, list: seq<string>, id: nat) {
    exists i :: 0 <= i < |rules| && ShadowsAt(rules, tag, list, id, i)
  }

  lemma ShadowedOwn(rules: seq<Rule>, tag: string, list: seq<string>, id: nat)
    requires rules != [] && TunnelOnly(rules[0]) && rules[0].tag == tag
    ensures !Shadowed(rules, tag, list, id)
  {
    forall i | 0 <= i < |rules| ensures !ShadowsAt(rules, tag, list, id, i) {
      assert i > 0 ==> rules[..i][0] == rules[0];
    }
  }

  lemma ShadowedStep(rules: seq<Rule>, tag: string, list: seq<string>, id: nat)
    requires rules != [] && !(TunnelOnly(rules[0]) && rules[0].tag == tag)
    ensures Shadowed(rules, tag, list, id) <==> SendsAfter(rules[0], tag, list, id) || Shadowed(rules[1..], tag, list, id)
  {
    hide SendsAfter;
    var rest := rules[1..];
    forall i | 0 <= i < |rest| ensures ShadowsAt(rules, tag, list, id, i + 1) <==> ShadowsAt(rest, tag, list, id, i) {
      assert rules[..i + 1][1..] == rest[..i] && rules[..i + 1][0] == rules[0];
    }
    assert rules[..0] == [];
    assert ShadowsAt(rules, tag, list, id, 0) <==> SendsAfter(rules[0], tag, list, id);
    if Shadowed(rules, tag, list, id) {
      var i :| 0 <= i < |rules| && ShadowsAt(rules, tag, list, id, i);
      assert i == 0 || ShadowsAt(rest, tag, list, id, i - 1);
    }
    if Shadowed(rest, tag, list, id) {
      var i :| 0 <= i < |rest| && ShadowsAt(rest, tag, list, id, i);
      assert ShadowsAt(rules, tag, list, id, i + 1);
    }
  }

  lemma {:induction false} WantedMatch(rules: seq<Rule>, tag: string, list: seq<string>, id: nat)
    requires Names(list, id)
    ensures MatchAfter(rules, tag, list, false, id) == Some(tag) <==> !Shadowed(rules, tag, list, id)
  {
    hide Names, SendsAfter, ShadowsAt;
    if rules != [] {
      var r := rules[0];
      SendsElsewhere(r, tag, list, id);
      if TunnelOnly(r) && r.tag == tag {
        ShadowedOwn(rules, tag, list, id);
      } else {
        ShadowedStep(rules, tag, list, id);
        WantedMatch(rules[1..], tag, list, id);
      }
    }
  }

  lemma SendsElsewhere(r: Rule, tag: string, want: seq<string>, id: nat)
    ensures SendsAfter(r, tag, want, id) ==> TunnelOnly(r) && r.tag != tag
  {
  }

  lemma {:induction false} UnwantedMatch(rules: seq<Rule>, tag: string, list: seq<string>, found: bool, id: nat)
    requires !Names(list, id)
    ensures MatchAfter(rules, tag, list, found, id) != Some(tag)
  {
    if rules != [] {
      UnwantedMatch(rules[1..], tag, list, found || (TunnelOnly(rules[0]) && rules[0].tag == tag), id);
    }
  }

  /** Some other target's rule names the tunnel in other digits and is left with it. */
  predicate Respelled(rules: seq<Rule>, tag: string, list: seq<string>, id: nat) {
    exists r :: r in rules && r.tag != tag && StillNames(r, list, id)
  }

  lemma {:induction false} WantedHolders(rules: seq<Rule>, tag: string, list: seq<string>, found: bool, id: nat)
    requires Names(list, id)
    ensures HoldersAfter(rules, tag, list, found, id) >= (if found then 0 else 1)
    ensures HoldersAfter(rules, tag, list, found, id) == (if found then 0 else 1) <==> !Respelled(rules, tag, list, id)
  {
    hide Names, StillNames;
    if rules != [] {
      var r, rest := rules[0], rules[1..];
      WantedHolders(rest, tag, list, found || (TunnelOnly(r) && r.tag == tag), id);
      StillTunnelOnly(r, list, id);
      assert forall q :: q in rules <==> q == r || q in rest;
      assert Respelled(rules, tag, list, id) <==> Respelled(rest, tag, list, id) || (r.tag != tag && StillNames(r, list, id));
    }
  }

  lemma {:induction false} TableShape(rules: seq<Rule>, tag: string, list: seq<string>, made: Rule, found: bool)
    requires GoodList(list) && IsMade(made, tag, list)
    ensures var after := SetRules(rules, tag, list, made, found);
            && OwnCount(after, tag) <= (if found then 0 else 1)
            && Operators(after) == Operators(rules)
  {
    hide GoodList, Holds, StillNames, Touched, HeadAfter, SetRules;
    if rules == [] {
      MadeShape(tag, list, made, found);
    } else {
      var r, rest := rules[0], rules[1..];
      var found' := found || (TunnelOnly(r) && r.tag == tag);
      var head, tail := HeadAfter(r, tag, list, found), SetRules(rest, tag, list, made, found');
      assert rules == [r] + rest;
      SetRulesStep(r, rest, tag, list, made, found);
      HeadHolds(r, tag, list, found, 0);
      TableShape(rest, tag, list, made, found');
      ShapeCons(head, tail, tag);
    }
  }

  lemma ShapeCons(h: seq<Rule>, tail: seq<Rule>, tag: string)
    requires |h| <= 1
    ensures OwnCount(h + tail, tag) == (if h != [] && TunnelOnly(h[0]) && h[0].tag == tag then 1 else 0) + OwnCount(tail, tag)
    ensures Operators(h + tail) == (if h != [] && !TunnelOnly(h[0]) then h else []) + Operators(tail)
  {
    if h == [] {
      assert h + tail == tail;
    } else {
      assert (h + tail)[1..] == tail && h == [h[0]];
    }
  }

  lemma MadeShape(tag: string, list: seq<string>, made: Rule, found: bool)
    requires GoodList(list) && IsMade(made, tag, list)
    ensures var after := SetRules([], tag, list, made, found);
            OwnCount(after, tag) <= (if found then 0 else 1) && Operators(after) == []
  {
    if !found && list != [] {
      GoodListStorable(list);
      RewrittenHolds(made, list);
      assert [made][1..] == [];
    }
  }

  /** Setting a target's tunnels, in any table: a tunnel not asked for never goes to the target; one that is
      goes there exactly when no rule above the target's own is left naming it in other digits, and is named
      once exactly when no rule is; the target has at most one rule, and the operator's own stay as they were. */
  lemma SetTunnelsIsExact(rules: seq<Rule>, tag: string, ids: seq<nat>, made: Rule, id: nat)
    requires Ids(ids) && IsMade(made, tag, Listed(ids)) && id < UINT64
    ensures var list := Listed(ids);
            var after := SetRules(rules, tag, list, made, false);
            && (id !in ids ==> FirstMatch(after, id) != Some(tag))
            && (id in ids ==> (FirstMatch(after, id) == Some(tag) <==> !Shadowed(rules, tag, list, id)))
            && (id in ids ==> (Holders(after, id) == 1 <==> !Respelled(rules, tag, list, id)))
            && OwnCount(after, tag) <= 1 && Operators(after) == Operators(rules)
  {
    var list := Listed(ids);
    ListedFacts(ids);
    NamesDecimal(list, id);
    MatchesAfter(rules, tag, list, made, false, id);
    TableShape(rules, tag, list, made, false);
    if id in ids {
      WantedMatch(rules, tag, list, id);
      WantedHolders(rules, tag, list, false, id);
    } else {
      UnwantedMatch(rules, tag, list, false, id);
    }
  }

  /** In a table that names tunnels the way the panel writes them, neither can happen. */
  lemma CanonicalIsNeverShadowed(rules: seq<Rule>, tag: string, ids: seq<nat>, id: nat)
    requires AllCanonical(rules) && Ids(ids) && id in ids
    ensures !Shadowed(rules, tag, Listed(ids), id) && !Respelled(rules, tag, Listed(ids), id)
  {
    ListedFacts(ids);
    forall r | r in rules && TunnelOnly(r) ensures !StillNames(r, Listed(ids), id) {
      CanonicalTaken(r, Listed(ids), id);
    }
  }

  lemma CanonicalTaken(r: Rule, want: seq<string>, id: nat)
    requires Decimal(id) in want && forall v :: v in Split(r.interfaces) ==> Canonical(v)
    ensures !StillNames(r, want, id)
  {
    forall v | v in Split(r.interfaces) && v !in want ensures ParseUint(v) != Some(id) {
      assert Canonical(v);
    }
  }

  // ---- exactly when no tunnel is moved that was not asked for ----

  ghost predicate KeepsOthers(rules: seq<Rule>, after: seq<Rule>, tag: string, ids: seq<nat>) {
    forall id: nat :: id < UINT64 && id !in ids && FirstMatch(rules, id) != Some(tag) ==>
      FirstMatch(after, id) == FirstMatch(rules, id)
  }

  /** Rule i is one that rewriting enables, and the first such to name the tunnel, before any that sends it
      somewhere already. */
  predicate Jumps(rules: seq<Rule>, tag: string, list: seq<string>, i: nat, id: nat)
    requires i < |rules|
  {
    && rules[i].tag != tag && Revives(rules[i], list) && Holds(rules[i], id)
    && FirstMatch(rules[..i], id) == None
    && forall j :: 0 <= j < i ==> !(rules[j].tag != tag && Revives(rules[j], list) && Holds(rules[j], id))
  }

  /** Every such rule sends the tunnel where it went. */
  predicate JumpsAgree(rules: seq<Rule>, tag: string, list: seq<string>, id: nat) {
    forall i :: 0 <= i < |rules| && Jumps(rules, tag, list, i, id) ==> FirstMatch(rules, id) == Some(rules[i].tag)
  }

  /** The first rule, where the tunnel is one not asked for. */
  lemma HeadFacts(r: Rule, tag: string, list: seq<string>, id: nat)
    requires !Names(list, id)
    ensures StillNames(r, list, id) <==> TunnelOnly(r) && Holds(r, id)
    ensures r.tag != tag && TunnelOnly(r) && Holds(r, id) && !r.enabled ==> (Revives(r, list) <==> Touched(r, list))
    ensures Revives(r, list) ==> TunnelOnly(r) && !r.enabled
  {
    if Holds(r, id) {
      var v :| v in Split(r.interfaces) && ParseUint(v) == Some(id);
      assert v !in list;
    }
  }

  lemma JumpsShift(rules: seq<Rule>, tag: string, list: seq<string>, id: nat)
    requires rules != [] && !Sends(rules[0], id)
    requires !(rules[0].tag != tag && Revives(rules[0], list) && Holds(rules[0], id))
    ensures JumpsAgree(rules, tag, list, id) <==> JumpsAgree(rules[1..], tag, list, id)
  {
    hide Sends, Revives, Holds;
    var rest := rules[1..];
    forall i | 0 <= i < |rest| ensures Jumps(rules, tag, list, i + 1, id) <==> Jumps(rest, tag, list, i, id) {
      assert rules[..i + 1][1..] == rest[..i] && rules[..i + 1][0] == rules[0];
      assert forall j :: 1 <= j < i + 1 ==> rules[j] == rest[j - 1];
    }
    assert !Jumps(rules, tag, list, 0, id);
    if JumpsAgree(rest, tag, list, id) {
      forall i | 0 <= i < |rules| && Jumps(rules, tag, list, i, id) ensures FirstMatch(rules, id) == Some(rules[i].tag) {
        assert Jumps(rest, tag, list, i - 1, id);
      }
    }
    if JumpsAgree(rules, tag, list, id) {
      forall i | 0 <= i < |rest| && Jumps(rest, tag, list, i, id) ensures FirstMatch(rest, id) == Some(rest[i].tag) {
        assert Jumps(rules, tag, list, i + 1, id);
      }
    }
  }

  lemma JumpsFirst(rules: seq<Rule>, tag: string, list: seq<string>, id: nat)
    requires rules != [] && rules[0].tag != tag && Revives(rules[0], list) && Holds(rules[0], id)
    ensures JumpsAgree(rules, tag, list, id) <==> FirstMatch(rules, id) == Some(rules[0].tag)
  {
    hide Revives, Holds;
    assert rules[..0] == [];
    assert Jumps(rules, tag, list, 0, id);
    forall i | 0 < i < |rules| ensures !Jumps(rules, tag, list, i, id) {
    }
  }

  lemma JumpsNone(rules: seq<Rule>, tag: string, list: seq<string>, id: nat)
    requires rules != [] && Sends(rules[0], id)
    ensures JumpsAgree(rules, tag, list, id)
  {
    forall i | 0 <= i < |rules| ensures !Jumps(rules, tag, list, i, id) {
      assert i > 0 ==> rules[..i][0] == rules[0];
    }
  }

  /** One tunnel not asked for and not on the target stays exactly when the rules enabled before its own
      agree with it. */
  lemma {:induction false} StaysExactlyWhen(rules: seq<Rule>, tag: string, list: seq<string>, found: bool, id: nat)
    requires !Names(list, id) && FirstMatch(rules, id) != Some(tag)
    ensures MatchAfter(rules, tag, list, found, id) == FirstMatch(rules, id) <==> JumpsAgree(rules, tag, list, id)
  {
    hide Names, Holds, StillNames, Touched, Revives, JumpsAgree;
    if rules == [] {
      NoRulesAgree(tag, list, id);
    } else {
      var r, rest := rules[0], rules[1..];
      HeadFacts(r, tag, list, id);
      if Sends(r, id) {
        JumpsNone(rules, tag, list, id);
      } else if r.tag != tag && Revives(r, list) && Holds(r, id) {
        JumpsFirst(rules, tag, list, id);
      } else {
        JumpsShift(rules, tag, list, id);
        StaysExactlyWhen(rest, tag, list, found || (TunnelOnly(r) && r.tag == tag), id);
      }
    }
  }

  lemma NoRulesAgree(tag: string, list: seq<string>, id: nat)
    ensures JumpsAgree([], tag, list, id)
  {
  }

  /** In any table, every tunnel not asked for and not on the target stays where it was exactly when each
      disabled rule that is enabled for naming a tunnel asked for too, and comes first for another tunnel,
      sends that one where it went. */
  lemma KeepsOthersExactlyWhenJumpsAgree(rules: seq<Rule>, tag: string, ids: seq<nat>, made: Rule)
    requires Ids(ids) && IsMade(made, tag, Listed(ids))
    ensures KeepsOthers(rules, SetRules(rules, tag, Listed(ids), made, false), tag, ids)
       <==> forall id: nat :: id < UINT64 && id !in ids && FirstMatch(rules, id) != Some(tag) ==> JumpsAgree(rules, tag, Listed(ids), id)
  {
    hide JumpsAgree, SetRules, Names, Listed;
    var list := Listed(ids);
    ListedFacts(ids);
    forall id: nat | id < UINT64 && id !in ids && FirstMatch(rules, id) != Some(tag)
      ensures FirstMatch(SetRules(rules, tag, list, made, false), id) == FirstMatch(rules, id) <==> JumpsAgree(rules, tag, list, id)
    {
      NamesDecimal(list, id);
      MatchesAfter(rules, tag, list, made, false, id);
      StaysExactlyWhen(rules, tag, list, false, id);
    }
  }

  /** A call for an unknown target fails once the walk is over; it has then changed nothing exactly when no
      tunnel-only rule names one of the tunnels in the digits the panel writes. */
  lemma {:induction false} WalkChangesNothingExactlyWhen(rules: seq<Rule>, tag: string, list: seq<string>, found: bool)
    requires IdsDistinct(rules) && Own(rules, tag).None?
    ensures Walked(rules, tag, list, found) == rules <==> forall r :: r in rules && TunnelOnly(r) ==> !Touched(r, list)
  {
    hide Touched;
    if rules != [] {
      var r, rest := rules[0], rules[1..];
      var tail := Walked(rest, tag, list, found);
      assert rules == [r] + rest && IdsDistinct(rest) && NoId(rest, r.id);
      WalkChangesNothingExactlyWhen(rest, tag, list, found);
      RowUnchanged(r, tag, list, found);
      WalkedIds(rest, tag, list, found, r.id);
      if RowAfter(r, tag, list, found) != [r] {
        RowAfterKeepsId(r, tag, list, found);
        assert Walked(rules, tag, list, found) == RowAfter(r, tag, list, found) + tail;
        assert Walked(rules, tag, list, found) != rules;
      }
      assert forall q :: q in rules <==> q == r || q in rest;
    }
  }

  lemma RowUnchanged(r: Rule, tag: string, list: seq<string>, found: bool)
    requires !(TunnelOnly(r) && r.tag == tag)
    ensures RowAfter(r, tag, list, found) == [r] <==> !(TunnelOnly(r) && Touched(r, list))
  {
    if TunnelOnly(r) {
      var all := Split(r.interfaces);
      var kept := Without(all, list);
      WithoutFacts(all, list);
      SplitStorable(r.interfaces);
      WithoutDistinct(all, list);
      if |kept| != |all| && kept != [] {
        RewrittenHolds(Rewritten(r, kept)[0], kept);
      }
    }
  }

  lemma RowAfterKeepsId(r: Rule, tag: string, list: seq<string>, found: bool)
    ensures var h := RowAfter(r, tag, list, found); |h| <= 1 && (h != [] ==> h[0].id == r.id)
  {
  }

  // ---- the table as the service changes it ----

  predicate IdsDistinct(rules: seq<Rule>) {
    forall i, j :: 0 <= i < j < |rules| ==> rules[i].id != rules[j].id
  }

  /** Delete the row with an id. */
  function Deleted(rules: seq<Rule>, id: nat): seq<Rule> {
    if rules == [] then []
    else if rules[0].id == id then Deleted(rules[1..], id)
    else [rules[0]] + Deleted(rules[1..], id)
  }

  /** Update the row with an id. */
  function Updated(rules: seq<Rule>, id: nat, interfaces: string): seq<Rule> {
    if rules == [] then []
    else [if rules[0].id == id then rules[0].(interfaces := interfaces, enabled := true) else rules[0]]
         + Updated(rules[1..], id, interfaces)
  }

  predicate NoId(rules: seq<Rule>, id: nat) {
    forall i :: 0 <= i < |rules| ==> rules[i].id != id
  }

  lemma HeadKept(head: seq<Rule>, tail: seq<Rule>, id: nat, interfaces: string)
    requires |head| <= 1 && NoId(head, id)
    ensures Deleted(head + tail, id) == head + Deleted(tail, id)
    ensures Updated(head + tail, id, interfaces) == head + Updated(tail, id, interfaces)
  {
    if head == [] {
      assert head + tail == tail;
    } else {
      assert (head + tail)[1..] == tail;
    }
  }

  lemma ChangeFirst(r: Rule, rest: seq<Rule>, interfaces: string)
    requires NoId(rest, r.id)
    ensures Deleted([r] + rest, r.id) == rest
    ensures Updated([r] + rest, r.id, interfaces) == [r.(interfaces := interfaces, enabled := true)] + rest
  {
    assert ([r] + rest)[1..] == rest;
    ChangeNone(rest, r.id, interfaces);
  }

  lemma Regroup(h: Rule, a: seq<Rule>, b: seq<Rule>)
    ensures ([h] + a) + b == [h] + (a + b)
  {
  }

  lemma {:induction false} ChangeOne(before: seq<Rule>, r: Rule, rest: seq<Rule>, interfaces: string)
    requires NoId(before, r.id) && NoId(rest, r.id)
    ensures Deleted(before + ([r] + rest), r.id) == before + rest
    ensures Updated(before + ([r] + rest), r.id, interfaces) == before + ([r.(interfaces := interfaces, enabled := true)] + rest)
  {
    var tail, tail' := [r] + rest, [r.(interfaces := interfaces, enabled := true)] + rest;
    if before == [] {
      ChangeFirst(r, rest, interfaces);
      assert before + tail == tail && before + rest == rest && before + tail' == tail';
    } else {
      var h, b := before[0], before[1..];
      ChangeOne(b, r, rest, interfaces);
      HeadKept([h], b + tail, r.id, interfaces);
      assert before == [h] + b;
      Regroup(h, b, tail);
      Regroup(h, b, rest);
      Regroup(h, b, tail');
    }
  }

  lemma {:induction false} ChangeNone(rules: seq<Rule>, id: nat, interfaces: string)
    requires NoId(rules, id)
    ensures Deleted(rules, id) == rules && Updated(rules, id, interfaces) == rules
  {
    if rules != [] {
      ChangeNone(rules[1..], id, interfaces);
    }
  }

  lemma {:induction false} OwnAppend(rules: seq<Rule>, r: Rule, tag: string)
    ensures Own(rules + [r], tag) == (if Own(rules, tag).Some? then Own(rules, tag)
                                      else if TunnelOnly(r) && r.tag == tag then Some(r) else None)
  {
    if rules == [] {
      assert rules + [r] == [r] && [r][1..] == [];
    } else {
      assert (rules + [r])[1..] == rules[1..] + [r];
      OwnAppend(rules[1..], r, tag);
    }
  }

  lemma Assoc(a: seq<Rule>, b: seq<Rule>, c: seq<Rule>)
    ensures a + b + c == a + (b + c)
  {
  }

  lemma WalkedOne(r: Rule, tag: string, want: seq<string>, found: bool)
    ensures Walked([r], tag, want, found) == RowAfter(r, tag, want, found)
  {
    assert [r][1..] == [];
  }

  lemma {:induction false} WalkedAppend(rules: seq<Rule>, r: Rule, tag: string, want: seq<string>, found: bool)
    ensures Walked(rules + [r], tag, want, found)
         == Walked(rules, tag, want, found) + RowAfter(r, tag, want, found || Own(rules, tag).Some?)
  {
    if rules == [] {
      assert rules + [r] == [r];
      WalkedOne(r, tag, want, found);
    } else {
      var first, rest := rules[0], rules[1..];
      var found1 := found || (TunnelOnly(first) && first.tag == tag);
      assert (rules + [r])[1..] == rest + [r];
      WalkedAppend(rest, r, tag, want, found1);
      Assoc(RowAfter(first, tag, want, found), Walked(rest, tag, want, found1), RowAfter(r, tag, want, found1 || Own(rest, tag).Some?));
    }
  }

  /** The walk invents no ids. */
  lemma {:induction false} WalkedIds(rules: seq<Rule>, tag: string, want: seq<string>, found: bool, id: nat)
    requires NoId(rules, id)
    ensures NoId(Walked(rules, tag, want, found), id)
  {
    if rules != [] {
      var found' := found || (TunnelOnly(rules[0]) && rules[0].tag == tag);
      WalkedIds(rules[1..], tag, want, found', id);
    }
  }

  /** What becomes of the table after the walk: the own rule rewritten or deleted, or one made at the end. */
  function Finished(walked: seq<Rule>, own: Option<Rule>, list: seq<string>, made: Rule): seq<Rule> {
    if own.None? then walked + (if list == [] then [] else [made])
    else if list == [] then Deleted(walked, own.value.id)
    else Updated(walked, own.value.id, Join(list))
  }

  lemma FinishedAtOwn(r: Rule, rest: seq<Rule>, tag: string, list: seq<string>, made: Rule)
    requires NoId(rest, r.id) && TunnelOnly(r) && r.tag == tag
    ensures SetRules([r] + rest, tag, list, made, false) == Finished([r] + Walked(rest, tag, list, true), Some(r), list, made)
  {
    assert ([r] + rest)[1..] == rest;
    WalkedFound(rest, tag, list, made);
    WalkedIds(rest, tag, list, true, r.id);
    ChangeFirst(r, Walked(rest, tag, list, true), Join(list));
  }

  lemma FinishedAfter(head: seq<Rule>, walked: seq<Rule>, own: Option<Rule>, list: seq<string>, made: Rule)
    requires |head| <= 1 && (own.Some? ==> NoId(head, own.value.id))
    ensures Finished(head + walked, own, list, made) == head + Finished(walked, own, list, made)
  {
    if own.Some? {
      HeadKept(head, walked, own.value.id, Join(list));
    } else {
      Assoc(head, walked, if list == [] then [] else [made]);
    }
  }

  /** Rewriting the own rule after the walk gives the finished table; with none, it is made at the end. */
  lemma {:induction false} WalkedThenOwn(rules: seq<Rule>, tag: string, list: seq<string>, made: Rule)
    requires IdsDistinct(rules)
    ensures SetRules(rules, tag, list, made, false) == Finished(Walked(rules, tag, list, false), Own(rules, tag), list, made)
  {
    if rules == [] {
      return;
    }
    var r, rest := rules[0], rules[1..];
    assert IdsDistinct(rest) && NoId(rest, r.id) && rules == [r] + rest;
    if TunnelOnly(r) && r.tag == tag {
      FinishedAtOwn(r, rest, tag, list, made);
    } else {
      WalkedThenOwn(rest, tag, list, made);
      var own := Own(rest, tag);
      if own.Some? {
        OwnIn(rest, tag);
      }
      RowAfterShort(r, tag, list);
      FinishedAfter(RowAfter(r, tag, list, false), Walked(rest, tag, list, false), own, list, made);
    }
  }

  lemma RowAfterShort(r: Rule, tag: string, list: seq<string>)
    ensures |RowAfter(r, tag, list, false)| <= 1 && forall id: nat :: id != r.id ==> NoId(RowAfter(r, tag, list, false), id)
  {
  }

  lemma {:induction false} OwnIn(rules: seq<Rule>, tag: string)
    requires Own(rules, tag).Some?
    ensures exists i :: 0 <= i < |rules| && rules[i] == Own(rules, tag).value
  {
    if !(TunnelOnly(rules[0]) && rules[0].tag == tag) {
      OwnIn(rules[1..], tag);
      var i :| 0 <= i < |rules[1..]| && rules[1..][i] == Own(rules, tag).value;
      assert rules[i + 1] == Own(rules, tag).value;
    }
  }

  lemma {:induction false} WalkedFound(rules: seq<Rule>, tag: string, list: seq<string>, made: Rule)
    ensures SetRules(rules, tag, list, made, true) == Walked(rules, tag, list, true)
  {
    if rules != [] {
      WalkedFound(rules[1..], tag, list, made);
    }
  }

  predicate Lists(out: map<string, seq<nat>>, t: string, id: nat) {
    t in out && id in out[t]
  }

  predicate NoRepeats(out: map<string, seq<nat>>) {
    forall t :: t in out ==> forall i, j :: 0 <= i < j < |out[t]| ==> out[t][i] != out[t][j]
  }

  /** The tunnels listed so far are where the first match over these rules sends them. */
  ghost predicate Grouped(out: map<string, seq<nat>>, seen: set<nat>, rules: seq<Rule>) {
    && (forall id: nat :: id in seen <==> FirstMatch(rules, id).Some?)
    && (forall id: nat, t :: Lists(out, t, id) <==> FirstMatch(rules, id) == Some(t))
  }

  /** One rule's tunnels listed under its target, but for those seen already. */
  ghost predicate Added(out: map<string, seq<nat>>, seen: set<nat>, r: Rule, out': map<string, seq<nat>>, seen': set<nat>) {
    && (forall id: nat :: id in seen' <==> id in seen || Holds(r, id))
    && (forall id: nat, t :: Lists(out', t, id) <==> Lists(out, t, id) || (t == r.tag && id !in seen && Holds(r, id)))
  }

  lemma GroupedNext(out: map<string, seq<nat>>, seen: set<nat>, rules: seq<Rule>, r: Rule, out': map<string, seq<nat>>, seen': set<nat>)
    requires Grouped(out, seen, rules)
    requires if TunnelOnly(r) && r.enabled then Added(out, seen, r, out', seen') else out' == out && seen' == seen
    ensures Grouped(out', seen', rules + [r])
  {
    forall id: nat ensures id in seen' <==> FirstMatch(rules + [r], id).Some? {
      FirstMatchAppend(rules, r, id);
    }
    forall id: nat, t ensures Lists(out', t, id) <==> FirstMatch(rules + [r], id) == Some(t) {
      FirstMatchAppend(rules, r, id);
    }
  }

  datatype TunnelError = NoSuchTunnel | NoSuchTarget

  class RuleTable {
    var rules: seq<Rule>
    var nextId: nat

    ghost predicate Valid()
      reads this
    {
      IdsDistinct(rules) && forall i :: 0 <= i < |rules| ==> rules[i].id < nextId
    }

    constructor ()
      ensures Valid() && rules == []
    {
      rules, nextId := [], 1;
    }

    method SetRuleTunnels(r: Rule, list: seq<string>)
      modifies this`rules
      ensures rules == (if list == [] then Deleted(old(rules), r.id) else Updated(old(rules), r.id, Join(list)))
    {
      if list == [] {
        rules := Deleted(rules, r.id);
      } else {
        rules := Updated(rules, r.id, Join(list));
      }
    }

    /** Where each target's tunnels are, by the enabled tunnel-only rules, first match first. */
    method TunnelsByTarget() returns (out: map<string, seq<nat>>)
      ensures forall id: nat, t :: Lists(out, t, id) <==> FirstMatch(rules, id) == Some(t)
      ensures NoRepeats(out)
    {
      out := map[];
      var seen: set<nat> := {};
      for i := 0 to |rules|
        invariant Grouped(out, seen, rules[..i])
        invariant NoRepeats(out)
      {
        var r := rules[i];
        assert rules[..i + 1] == rules[..i] + [r];
        ghost var out0, seen0 := out, seen;
        if TunnelOnly(r) && r.enabled {
          out, seen := AddTunnels(r, out, seen);
        }
        GroupedNext(out0, seen0, rules[..i], r, out, seen);
      }
      assert rules[..|rules|] == rules;
    }

    /** The tunnels of one rule that no earlier rule had. */
    method AddTunnels(r: Rule, out: map<string, seq<nat>>, seen: set<nat>) returns (out': map<string, seq<nat>>, seen': set<nat>)
      requires NoRepeats(out) && forall id: nat, t :: Lists(out, t, id) ==> id in seen
      ensures NoRepeats(out') && Added(out, seen, r, out', seen')
    {
      out', seen' := out, seen;
      var vs := Split(r.interfaces);
      for k := 0 to |vs|
        invariant NoRepeats(out')
        invariant forall id: nat :: id in seen' <==> id in seen || Some(id) in Parsed(vs[..k])
        invariant forall id: nat, t :: Lists(out', t, id) <==> Lists(out, t, id) || (t == r.tag && id !in seen && Some(id) in Parsed(vs[..k]))
      {
        var id := ParseUint(vs[k]);
        ParsedAppend(vs, k);
        if id.Some? && id.value !in seen' {
          ghost var before := out';
          var already := if r.tag in out' then out'[r.tag] else [];
          assert !Lists(out', r.tag, id.value);
          out' := out'[r.tag := already + [id.value]];
          seen' := seen' + {id.value};
          assert forall n: nat, t :: Lists(out', t, n) <==> Lists(before, t, n) || (t == r.tag && n == id.value);
        }
      }
      assert vs[..|vs|] == vs;
      forall id: nat ensures Some(id) in Parsed(vs) <==> Holds(r, id) {
        ParsedIn(vs, id);
      }
    }

    /** One row of the walk: the target's first rule is kept as its own and any second one is folded
        into it; the wanted tunnels are taken out of every other target's. */
    method VisitRow(row: Rule, found: Option<Rule>, tag: string, want: seq<string>, ghost done: seq<Rule>, ghost rest: seq<Rule>)
      returns (own: Option<Rule>)
      requires rules == done + ([row] + rest) && NoId(done, row.id) && NoId(rest, row.id)
      modifies this`rules
      ensures rules == done + (RowAfter(row, tag, want, found.Some?) + rest)
      ensures own == (if found.None? && TunnelOnly(row) && row.tag == tag then Some(row) else found)
    {
      own := found;
      assert [] + rest == rest;
      if TunnelOnly(row) {
        if row.tag == tag {
          if own.None? {
            own := Some(row);
          } else {
            ChangeOne(done, row, rest, "");
            SetRuleTunnels(row, []);
          }
        } else {
          var kept := Without(Split(row.interfaces), want);
          if |kept| != |Split(row.interfaces)| {
            ChangeOne(done, row, rest, Join(kept));
            SetRuleTunnels(row, kept);
          }
        }
      }
    }

    /** The walk over the table. */
    method Walk(tag: string, want: seq<string>) returns (own: Option<Rule>)
      requires IdsDistinct(rules)
      modifies this`rules
      ensures own == Own(old(rules), tag) && rules == Walked(old(rules), tag, want, false)
    {
      hide RowAfter, IdsDistinct;
      var rows := rules;
      own := None;
      ghost var done := Walked(rows[..0], tag, want, false);
      assert done + rows[0..] == rows;
      for i := 0 to |rows|
        invariant own == Own(rows[..i], tag)
        invariant done == Walked(rows[..i], tag, want, false)
        invariant rules == done + rows[i..]
      {
        ghost var next := Walked(rows[..i + 1], tag, want, false);
        WalkStep(rows, i, tag, want);
        RowFirst(done, rows, i);
        ghost var after := RowAfter(rows[i], tag, want, own.Some?);
        own := VisitRow(rows[i], own, tag, want, done, rows[i + 1..]);
        Assoc(done, after, rows[i + 1..]);
        done := next;
      }
      WholeRows(done, rows);
    }

    /** Send these tunnels, and no others, to `tag`. `tunnels` and `targets` are what exists. With an unknown
        tunnel nothing is changed; an unknown target is noticed after the other rules were. */
    method SetTunnels(tag: string, ids: seq<nat>, tunnels: set<nat>, targets: set<string>)
      returns (r: Result<(), TunnelError>, ghost made: Rule)
      requires Valid() && Ids(ids) && "direct" in targets
      modifies this
      ensures Valid() && IsMade(made, tag, Listed(ids))
      ensures (exists id :: id in ids && id !in tunnels) ==> r == Err(NoSuchTunnel) && rules == old(rules)
      ensures (forall id :: id in ids ==> id in tunnels) && (tag in targets || ids == [] || Own(old(rules), tag).Some?) ==>
                r == Ok(()) && rules == SetRules(old(rules), tag, Listed(ids), made, false)
      ensures (forall id :: id in ids ==> id in tunnels) && tag !in targets && ids != [] && Own(old(rules), tag).None? ==>
                r == Err(NoSuchTarget) && rules == Walked(old(rules), tag, Listed(ids), false)
    {
      var want := Listed(ids);
      var new_ := Rule(nextId, tag + " tunnels", true, Join(want), NO_CRITERIA, tag);
      made := new_;
      if exists id :: id in ids && id !in tunnels {
        return Err(NoSuchTunnel), made;
      }
      ListedFacts(ids);
      ghost var rows := rules;
      WalkedValid(rows, tag, want, nextId);
      WalkedThenOwn(rows, tag, want, made);
      var own := Walk(tag, want);
      if own.Some? {
        ChangedIds(rules, own.value.id, Join(want), nextId);
        if Join(want) != own.value.interfaces || !own.value.enabled {
          SetRuleTunnels(own.value, want);
        } else {
          OwnIsOwn(rows, tag);
          OwnUnchanged(rows, tag, want);
        }
      } else if want != [] {
        if tag !in targets {
          return Err(NoSuchTarget), made;
        }
        rules := rules + [new_];
        nextId := nextId + 1;
      } else {
        assert rules + [] == rules;
      }
      return Ok(()), made;
    }
  }

  lemma RowFirst(done: seq<Rule>, rows: seq<Rule>, i: nat)
    requires i < |rows|
    ensures done + rows[i..] == done + ([rows[i]] + rows[i + 1..])
  {
  }

  lemma WholeRows(done: seq<Rule>, rows: seq<Rule>)
    ensures rows[..|rows|] == rows && done + rows[|rows|..] == done
  {
  }

  lemma WalkStep(rows: seq<Rule>, i: nat, tag: string, want: seq<string>)
    requires i < |rows| && IdsDistinct(rows)
    ensures var own := Own(rows[..i], tag);
            && Walked(rows[..i + 1], tag, want, false)
                 == Walked(rows[..i], tag, want, false) + RowAfter(rows[i], tag, want, own.Some?)
            && Own(rows[..i + 1], tag) == (if own.None? && TunnelOnly(rows[i]) && rows[i].tag == tag then Some(rows[i]) else own)
    ensures NoId(Walked(rows[..i], tag, want, false), rows[i].id) && NoId(rows[i + 1..], rows[i].id)
  {
    WalkedAppend(rows[..i], rows[i], tag, want, false);
    OwnAppend(rows[..i], rows[i], tag);
    assert rows[..i + 1] == rows[..i] + [rows[i]];
    WalkedIds(rows[..i], tag, want, false, rows[i].id);
  }

  lemma WalkedValid(rules: seq<Rule>, tag: string, want: seq<string>, bound: nat)
    requires IdsDistinct(rules) && forall j :: 0 <= j < |rules| ==> rules[j].id < bound
    ensures var walked := Walked(rules, tag, want, false);
            IdsDistinct(walked) && forall j :: 0 <= j < |walked| ==> walked[j].id < bound
  {
    var walked := Walked(rules, tag, want, false);
    WalkedDistinct(rules, tag, want, false);
    forall j | 0 <= j < |walked| ensures walked[j].id < bound {
      if walked[j].id >= bound {
        WalkedIds(rules, tag, want, false, walked[j].id);
      }
    }
  }

  lemma {:induction false} FirstMatchAppend(rules: seq<Rule>, r: Rule, id: nat)
    ensures FirstMatch(rules + [r], id) ==
              (if FirstMatch(rules, id).Some? then FirstMatch(rules, id) else if Sends(r, id) then Some(r.tag) else None)
  {
    if rules == [] {
      assert rules + [r] == [r] && [r][1..] == [];
    } else {
      assert (rules + [r])[1..] == rules[1..] + [r];
      FirstMatchAppend(rules[1..], r, id);
    }
  }

  function Parsed(vs: seq<string>): (r: set<Option<nat>>)
  {
    set v | v in vs :: ParseUint(v)
  }

  lemma ParsedAppend(vs: seq<string>, k: nat)
    requires k < |vs|
    ensures Parsed(vs[..k + 1]) == Parsed(vs[..k]) + {ParseUint(vs[k])}
  {
    assert vs[..k + 1] == vs[..k] + [vs[k]];
    forall o ensures o in Parsed(vs[..k + 1]) <==> o in Parsed(vs[..k]) + {ParseUint(vs[k])} {
    }
  }

  lemma ParsedIn(vs: seq<string>, id: nat)
    ensures Some(id) in Parsed(vs) <==> exists v :: v in vs && ParseUint(v) == Some(id)
  {
  }

  lemma {:induction false} WalkedDistinct(rules: seq<Rule>, tag: string, want: seq<string>, found: bool)
    requires IdsDistinct(rules)
    ensures IdsDistinct(Walked(rules, tag, want, found))
  {
    if rules != [] {
      var found' := found || (TunnelOnly(rules[0]) && rules[0].tag == tag);
      WalkedDistinct(rules[1..], tag, want, found');
      WalkedIds(rules[1..], tag, want, found', rules[0].id);
    }
  }

  lemma {:induction false} ChangedNoId(rules: seq<Rule>, id: nat, interfaces: string, n: nat)
    requires NoId(rules, n)
    ensures NoId(Deleted(rules, id), n) && NoId(Updated(rules, id, interfaces), n)
  {
    if rules != [] {
      ChangedNoId(rules[1..], id, interfaces, n);
    }
  }

  lemma DistinctCons(r: Rule, rest: seq<Rule>)
    requires IdsDistinct(rest) && NoId(rest, r.id)
    ensures IdsDistinct([r] + rest)
  {
    assert forall i :: 0 < i < |[r] + rest| ==> ([r] + rest)[i] == rest[i - 1];
  }

  lemma {:induction false} ChangedDistinct(rules: seq<Rule>, id: nat, interfaces: string)
    requires IdsDistinct(rules)
    ensures IdsDistinct(Deleted(rules, id)) && IdsDistinct(Updated(rules, id, interfaces))
  {
    if rules != [] {
      var r, rest := rules[0], rules[1..];
      assert NoId(rest, r.id);
      ChangedDistinct(rest, id, interfaces);
      ChangedNoId(rest, id, interfaces, r.id);
      DistinctCons(r, Deleted(rest, id));
      DistinctCons(if r.id == id then r.(interfaces := interfaces, enabled := true) else r, Updated(rest, id, interfaces));
    }
  }

  lemma ChangedIds(rules: seq<Rule>, id: nat, interfaces: string, bound: nat)
    requires IdsDistinct(rules) && forall j :: 0 <= j < |rules| ==> rules[j].id < bound
    ensures IdsDistinct(Deleted(rules, id)) && IdsDistinct(Updated(rules, id, interfaces))
    ensures forall j :: 0 <= j < |Deleted(rules, id)| ==> Deleted(rules, id)[j].id < bound
    ensures forall j :: 0 <= j < |Updated(rules, id, interfaces)| ==> Updated(rules, id, interfaces)[j].id < bound
  {
    ChangedDistinct(rules, id, interfaces);
    var d, u := Deleted(rules, id), Updated(rules, id, interfaces);
    forall j | 0 <= j < |d| ensures d[j].id < bound {
      if d[j].id >= bound {
        ChangedNoId(rules, id, interfaces, d[j].id);
      }
    }
    forall j | 0 <= j < |u| ensures u[j].id < bound {
      if u[j].id >= bound {
        ChangedNoId(rules, id, interfaces, u[j].id);
      }
    }
  }

  lemma RowAfterIds(r: Rule, tag: string, want: seq<string>, found: bool, id: nat)
    requires r.id != id
    ensures |RowAfter(r, tag, want, found)| <= 1 && NoId(RowAfter(r, tag, want, found), id)
  {
  }

  lemma {:induction false} OwnIsOwn(rules: seq<Rule>, tag: string)
    requires Own(rules, tag).Some?
    ensures TunnelOnly(Own(rules, tag).value)
  {
    if !(TunnelOnly(rules[0]) && rules[0].tag == tag) {
      OwnIsOwn(rules[1..], tag);
    }
  }

  /** An own rule that already holds the list, enabled, is as rewriting would leave it. */
  lemma {:induction false} OwnUnchanged(rules: seq<Rule>, tag: string, list: seq<string>)
    requires IdsDistinct(rules) && Own(rules, tag).Some?
    requires Own(rules, tag).value.interfaces == Join(list) && Own(rules, tag).value.enabled
    ensures Walked(rules, tag, list, false) == Updated(Walked(rules, tag, list, false), Own(rules, tag).value.id, Join(list))
  {
    var r, rest := rules[0], rules[1..];
    var own := Own(rules, tag).value;
    assert IdsDistinct(rest);
    if TunnelOnly(r) && r.tag == tag {
      var tail := Walked(rest, tag, list, true);
      WalkedIds(rest, tag, list, true, r.id);
      ChangeFirst(r, tail, Join(list));
    } else {
      OwnUnchanged(rest, tag, list);
      OwnIn(rest, tag);
      RowAfterIds(r, tag, list, false, own.id);
      HeadKept(RowAfter(r, tag, list, false), Walked(rest, tag, list, false), own.id, Join(list));
    }
  }
}
