/**
  Every run of the operations on outbounds, balancers, rules and subscriptions,
  and the operations themselves as the services make them.
 */
module EgressPanel {
  import opened Prelude
  import opened Egress
  import opened Subscriptions
  import Tunnels
  import ListField

  datatype Op =
    | AddOutbound(input: Input)
    | EditOutbound(id: nat, input: Input)
    | DropOutbound(id: nat)
    | OrderOutbounds(ids: seq<nat>)
    | AddBalancer(balancer: BalancerInput)
    | EditBalancer(id: nat, balancer: BalancerInput)
    | DropBalancer(id: nat)
    | AddRule(rule: Rule, ok: bool)
    | EditRule(at: nat, rule: Rule, ok: bool)
    | DropRule(id: nat)
    | ChooseTunnels(tag: string, ids: seq<nat>, tunnels: set<nat>)
    | RefreshSub(sub: nat, prefix: string, prepend: bool, items: seq<Input>)
    | DropSub(sub: nat)

  ghost function Apply(db: Db, op: Op): Db {
    match op
    case AddOutbound(input) => Create(db, input).0
    case EditOutbound(id, input) => Update(db, id, input).0
    case DropOutbound(id) => Delete(db, id).0
    case OrderOutbounds(ids) => db.(outs := Positioned(db.outs, ids, 0))
    case AddBalancer(b) => CreateBalancer(db, b).0
    case EditBalancer(id, b) => UpdateBalancer(db, id, b).0
    case DropBalancer(id) => DeleteBalancer(db, id).0
    case AddRule(rule, ok) => CreateRule(db, rule, ok).0
    case EditRule(at, rule, ok) => UpdateRule(db, at, rule, ok).0
    case DropRule(id) => DeleteRule(db, id)
    case ChooseTunnels(tag, ids, tunnels) => SetTunnels(db, tag, ids, tunnels).0
    case RefreshSub(sub, prefix, prepend, items) => Refresh(db, sub, prefix, prepend, items).0
    case DropSub(sub) => RemoveProduced(db, sub, {})
  }

  ghost function Run(db: Db, ops: seq<Op>): Db
    decreases |ops|
  {
    if ops == [] then db else Run(Apply(db, ops[0]), ops[1..])
  }

  // ---- no rule is ever left pointing nowhere ----

  lemma OrderKeeps(db: Db, ids: seq<nat>)
    requires Tables(db) && Grounded(db)
    ensures var db' := db.(outs := Positioned(db.outs, ids, 0)); Tables(db') && Grounded(db')
  {
    PositionedRows(db.outs, ids, 0);
    SameTagsKeep(db, db.(outs := Positioned(db.outs, ids, 0)));
  }

  lemma CreateRuleKeeps(db: Db, rule: Rule, ok: bool)
    requires Tables(db) && Grounded(db)
    ensures var db' := CreateRule(db, rule, ok).0; Tables(db') && Grounded(db')
  {
    if ok && Target(db, rule.tag) {
      var made := rule.(id := db.nextRule);
      var rules := db.rules + [made];
      forall r | r in rules ensures r.tag == rule.tag || exists i :: 0 <= i < |db.rules| && db.rules[i].tag == r.tag {
        var k :| 0 <= k < |rules| && rules[k] == r;
        assert k < |db.rules| ==> db.rules[k].tag == r.tag;
      }
      RulesKeep(db, rules, db.nextRule + 1, rule.tag);
    }
  }

  lemma UpdateRuleKeeps(db: Db, at: nat, rule: Rule, ok: bool)
    requires Tables(db) && Grounded(db)
    ensures var db' := UpdateRule(db, at, rule, ok).0; Tables(db') && Grounded(db')
  {
    if ok && at < |db.rules| && Target(db, rule.tag) {
      var rules := db.rules[at := rule.(id := db.rules[at].id)];
      forall r | r in rules ensures r.tag == rule.tag || exists i :: 0 <= i < |db.rules| && db.rules[i].tag == r.tag {
        var k :| 0 <= k < |rules| && rules[k] == r;
        assert k != at ==> db.rules[k].tag == r.tag;
      }
      RulesKeep(db, rules, db.nextRule, rule.tag);
    }
  }

  lemma {:induction false} DeletedWithin(rules: seq<Rule>, id: nat)
    ensures TagsWithin(Tunnels.Deleted(rules, id), rules, None)
  {
    if rules != [] {
      DeletedWithin(rules[1..], id);
      assert forall i :: 0 <= i < |rules[1..]| ==> rules[1..][i] == rules[i + 1];
    }
  }

  lemma WithinKeeps(db: Db, rules: seq<Rule>, nextRule: nat, extra: Option<string>)
    requires Tables(db) && Grounded(db) && TagsWithin(rules, db.rules, extra)
    requires extra.Some? ==> Target(db, extra.value)
    ensures var db' := db.(rules := rules, nextRule := nextRule); Tables(db') && Grounded(db')
  {
    RulesKeep(db, rules, nextRule, if extra.Some? then extra.value else DIRECT);
  }

  lemma {:induction false} OwnTagged(rules: seq<Rule>, tag: string)
    requires Tunnels.Own(rules, tag).Some?
    ensures exists i :: 0 <= i < |rules| && rules[i].tag == tag
  {
    if !(Tunnels.TunnelOnly(rules[0]) && rules[0].tag == tag) {
      OwnTagged(rules[1..], tag);
      var i :| 0 <= i < |rules[1..]| && rules[1..][i].tag == tag;
      assert rules[i + 1].tag == tag;
    }
  }

  /** Even one that fails half way: a target that does not exist takes no rule. */
  lemma SetTunnelsKeeps(db: Db, tag: string, ids: seq<nat>, tunnels: set<nat>)
    requires Tables(db) && Grounded(db)
    ensures var db' := SetTunnels(db, tag, ids, tunnels).0; Tables(db') && Grounded(db')
  {
    hide Tables, Tunnels.SetRules, Tunnels.Walked, Tunnels.Own, Tunnels.Listed;
    var list := Tunnels.Listed(ids);
    var made := Tunnels.Rule(db.nextRule, tag + " tunnels", true, ListField.Join(list), Tunnels.NO_CRITERIA, tag);
    SetRulesTags(db.rules, tag, list, made, false);
    if Tunnels.Own(db.rules, tag).Some? {
      OwnTagged(db.rules, tag);
    }
    ListedEmpty(ids);
    if Target(db, tag) || ids == [] || Tunnels.Own(db.rules, tag).Some? {
      WithinKeeps(db, Tunnels.SetRules(db.rules, tag, list, made, false), db.nextRule + 1,
                  if list == [] && Tunnels.Own(db.rules, tag).None? then None else Some(tag));
    } else {
      WithinKeeps(db, Tunnels.Walked(db.rules, tag, list, false), db.nextRule, None);
    }
  }

  lemma ListedEmpty(ids: seq<nat>)
    ensures ids == [] ==> Tunnels.Listed(ids) == []
  {
  }

  lemma ApplyKeeps(db: Db, op: Op)
    requires Tables(db) && Grounded(db)
    ensures Tables(Apply(db, op)) && Grounded(Apply(db, op))
  {
    hide Tables, Grounded, Create, Update, Delete, CreateBalancer, UpdateBalancer, DeleteBalancer, CreateRule, UpdateRule, SetTunnels, Refresh, RemoveProduced;
    match op
    case AddOutbound(input) => CreateKeeps(db, input);
    case EditOutbound(id, input) => UpdateKeeps(db, id, input);
    case DropOutbound(id) => DeleteKeeps(db, id);
    case OrderOutbounds(ids) => OrderKeeps(db, ids);
    case AddBalancer(b) => CreateBalancerKeeps(db, b);
    case EditBalancer(id, b) => UpdateBalancerKeeps(db, id, b);
    case DropBalancer(id) => DeleteBalancerKeeps(db, id);
    case AddRule(rule, ok) => CreateRuleKeeps(db, rule, ok);
    case EditRule(at, rule, ok) => UpdateRuleKeeps(db, at, rule, ok);
    case DropRule(id) =>
      DeletedWithin(db.rules, id);
      WithinKeeps(db, Tunnels.Deleted(db.rules, id), db.nextRule, None);
    case ChooseTunnels(tag, ids, tunnels) => SetTunnelsKeeps(db, tag, ids, tunnels);
    case RefreshSub(sub, prefix, prepend, items) => RefreshKeeps(db, sub, prefix, prepend, items);
    case DropSub(sub) => RemoveProducedKeeps(db, sub, {});
  }

  /** Over every run, every routing rule's target names an outbound or a balancer there is. */
  lemma {:induction false} RunKeepsTargets(db: Db, ops: seq<Op>)
    requires Tables(db) && Grounded(db)
    ensures Grounded(Run(db, ops)) && Tables(Run(db, ops))
    decreases |ops|
  {
    if ops != [] {
      ApplyKeeps(db, ops[0]);
      RunKeepsTargets(Apply(db, ops[0]), ops[1..]);
    }
  }

  // ---- what balancers point at is not kept so ----

  ghost predicate MembersExist(db: Db) {
    forall id, i :: id in db.bals && 0 <= i < |db.bals[id].members| ==> OutTag(db, db.bals[id].members[i])
  }

  ghost predicate FallbacksExist(db: Db) {
    forall id :: id in db.bals && db.bals[id].fallback != "" ==> OutTag(db, db.bals[id].fallback)
  }

  /** The old tag is gone after a rename, and no other tag is. */
  lemma RenameMoves(db: Db, id: nat, input: Input, t: string)
    requires Tables(db) && id in db.outs && !db.outs[id].builtin && Update(db, id, input).1.Ok?
    ensures var db' := Update(db, id, input).0;
            var old_, new_ := db.outs[id].tag, db'.outs[id].tag;
            && (t != old_ && OutTag(db, t) ==> OutTag(db', t))
            && (old_ != new_ ==> !OutTag(db', old_))
            && db'.bals == db.bals && (old_ == new_ ==> (OutTag(db', t) <==> OutTag(db, t)))
  {
    var db' := Update(db, id, input).0;
    ValidatedFacts(db, input, id);
    if t != db.outs[id].tag && OutTag(db, t) {
      var k :| k in db.outs && db.outs[k].tag == t;
      assert k in db'.outs && db'.outs[k].tag == t;
    }
    if OutTag(db', t) && t != db'.outs[id].tag {
      var k :| k in db'.outs && db'.outs[k].tag == t;
      assert k in db.outs && db.outs[k].tag == t;
    }
    if db.outs[id].tag == db'.outs[id].tag && OutTag(db, t) && t == db.outs[id].tag {
      assert id in db'.outs;
    }
  }

  /** A rename takes the rules with it but not the balancers: the members still all exist exactly when
      the tag did not change or no balancer had it. */
  lemma RenameKeepsMembersExactlyWhen(db: Db, id: nat, input: Input)
    requires Tables(db) && MembersExist(db) && id in db.outs && !db.outs[id].builtin && Update(db, id, input).1.Ok?
    ensures var db' := Update(db, id, input).0;
            MembersExist(db') <==> Trim(input.tag) == db.outs[id].tag || !MemberOf(db, db.outs[id].tag)
  {
    var db' := Update(db, id, input).0;
    ValidatedFacts(db, input, id);
    var old_ := db.outs[id].tag;
    assert db'.outs[id].tag == Trim(input.tag);
    RenameMoves(db, id, input, old_);
    if Trim(input.tag) == old_ || !MemberOf(db, old_) {
      forall b, i | b in db'.bals && 0 <= i < |db'.bals[b].members| ensures OutTag(db', db'.bals[b].members[i]) {
        var m := db.bals[b].members[i];
        RenameMoves(db, id, input, m);
        assert m in db.bals[b].members;
      }
    } else {
      var b :| b in db.bals && old_ in db.bals[b].members;
      var i :| 0 <= i < |db.bals[b].members| && db.bals[b].members[i] == old_;
      assert !OutTag(db', db'.bals[b].members[i]);
    }
  }

  /** Nor do the fallbacks follow: they still all exist exactly when the tag did not change or was nobody's. */
  lemma RenameKeepsFallbacksExactlyWhen(db: Db, id: nat, input: Input)
    requires Tables(db) && FallbacksExist(db) && id in db.outs && !db.outs[id].builtin && Update(db, id, input).1.Ok?
    ensures FallbacksExist(Update(db, id, input).0) <==>
            Trim(input.tag) == db.outs[id].tag || forall b :: b in db.bals ==> db.bals[b].fallback != db.outs[id].tag
  {
    hide Update, Tables;
    var db' := Update(db, id, input).0;
    var old_ := db.outs[id].tag;
    RenamedTag(db, id, input);
    RenameMoves(db, id, input, old_);
    if Trim(input.tag) == old_ || forall b :: b in db.bals ==> db.bals[b].fallback != old_ {
      forall b | b in db'.bals && db'.bals[b].fallback != "" ensures OutTag(db', db'.bals[b].fallback) {
        RenameMoves(db, id, input, db.bals[b].fallback);
      }
    } else {
      var b :| b in db.bals && db.bals[b].fallback == old_;
      assert !OutTag(db', db'.bals[b].fallback);
    }
  }

  lemma RenamedTag(db: Db, id: nat, input: Input)
    requires Tables(db) && id in db.outs && !db.outs[id].builtin && Update(db, id, input).1.Ok?
    ensures var db' := Update(db, id, input).0;
            id in db'.outs && db'.outs[id].tag == Trim(input.tag) && db'.bals == db.bals && db.outs[id].tag != ""
  {
    ValidatedFacts(db, input, id);
    assert GoodTag(db.outs[id].tag);
  }

  /** A delete looks at members and not at fallbacks: they still all exist exactly when the tag was nobody's. */
  lemma DeleteKeepsFallbacksExactlyWhen(db: Db, id: nat)
    requires Tables(db) && FallbacksExist(db) && MembersExist(db) && Delete(db, id).1.Ok?
    ensures var db' := Delete(db, id).0;
            && MembersExist(db')
            && (FallbacksExist(db') <==> forall b :: b in db.bals ==> db.bals[b].fallback != db.outs[id].tag)
  {
    var db' := Delete(db, id).0;
    var gone := db.outs[id].tag;
    forall t ensures OutTag(db', t) <==> OutTag(db, t) && t != gone {
      if OutTag(db, t) && t != gone {
        var k :| k in db.outs && db.outs[k].tag == t;
        assert k in db'.outs && db'.outs[k].tag == t;
      }
      if OutTag(db', t) {
        var k :| k in db'.outs && db'.outs[k].tag == t;
        assert k in db.outs && db.outs[k].tag == t;
      }
    }
    forall b, i | b in db'.bals && 0 <= i < |db'.bals[b].members| ensures OutTag(db', db'.bals[b].members[i]) {
      assert db.bals[b].members[i] in db.bals[b].members;
    }
    assert GoodTag(gone);
    assert forall b :: b in db.bals ==> db'.bals[b] == db.bals[b];
  }

  // ---- one space of tags ----

  /** No outbound and balancer have one tag, whatever its case. */
  ghost predicate OneSpace(db: Db) {
    forall i, b :: i in db.outs && b in db.bals ==> Lower(db.outs[i].tag) != Lower(db.bals[b].tag)
  }

  predicate BalancerNamed(db: Db, t: string) {
    exists b :: b in db.bals && Lower(db.bals[b].tag) == Lower(t)
  }

  lemma NewTagKeepsOneSpaceExactlyWhen(db: Db, outs: map<nat, Outbound>, id: nat, t: string)
    requires OneSpace(db) && id in outs && outs[id].tag == t && outs - {id} == db.outs - {id}
    ensures OneSpace(db.(outs := outs)) <==> !BalancerNamed(db, t)
  {
    hide Lower;
    var db' := db.(outs := outs);
    if !BalancerNamed(db, t) {
      forall i, b | i in outs && b in db.bals ensures Lower(outs[i].tag) != Lower(db.bals[b].tag) {
        if i != id {
          assert i in outs - {id} && (outs - {id})[i] == outs[i];
          assert i in db.outs && db.outs[i] == outs[i];
        }
      }
    } else {
      var b :| b in db.bals && Lower(db.bals[b].tag) == Lower(t);
      assert id in db'.outs && b in db'.bals;
    }
  }

  /** A new outbound keeps tags one space exactly when no balancer has its tag: the form looks only at outbounds. */
  lemma CreateKeepsOneSpaceExactlyWhen(db: Db, input: Input)
    requires OneSpace(db) && Create(db, input).1.Ok?
    ensures OneSpace(Create(db, input).0) <==> !BalancerNamed(db, Trim(input.tag))
  {
    hide Create, Lower, OneSpace, BalancerNamed;
    CreateShape(db, input);
    var db' := Create(db, input).0;
    var row: Outbound :| Fresh(db, input, row) && db' == db.(outs := db.outs[row.id := row], nextOut := row.id + 1);
    var outs := db.outs[row.id := row];
    assert outs - {row.id} == db.outs - {row.id};
    NewTagKeepsOneSpaceExactlyWhen(db, outs, row.id, Trim(input.tag));
    SameSpace(db', db.(outs := outs));
  }

  /** So does an edit; and after a rename no rule is left with the old tag, a balancer's of that tag neither. */
  lemma UpdateKeepsOneSpaceExactlyWhen(db: Db, id: nat, input: Input)
    requires OneSpace(db) && Tables(db) && id in db.outs && !db.outs[id].builtin && Update(db, id, input).1.Ok?
    ensures OneSpace(Update(db, id, input).0) <==> !BalancerNamed(db, Trim(input.tag))
    ensures Trim(input.tag) != db.outs[id].tag ==> !RuleUses(Update(db, id, input).0, db.outs[id].tag)
  {
    hide Lower, OneSpace, BalancerNamed;
    var db' := Update(db, id, input).0;
    RenamedTag(db, id, input);
    assert db'.outs - {id} == db.outs - {id};
    NewTagKeepsOneSpaceExactlyWhen(db, db'.outs, id, Trim(input.tag));
    SameSpace(db', db.(outs := db'.outs));
  }

  lemma SameSpace(a: Db, b: Db)
    requires a.outs == b.outs && a.bals == b.bals
    ensures OneSpace(a) <==> OneSpace(b)
  {
  }

  /** The balancers' form looks at both, and keeps it always. */
  lemma BalancersKeepOneSpace(db: Db, id: nat, input: BalancerInput)
    requires OneSpace(db)
    ensures OneSpace(CreateBalancer(db, input).0) && OneSpace(UpdateBalancer(db, id, input).0)
  {
    hide Lower;
  }
}
