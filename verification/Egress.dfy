/**
  The outbound, balancer and routing-rule tables, and every operation that
  changes which tags exist or which tags rules point at. Tables are maps from a
  row's id to the row; rules are in evaluation order.
 */
module Egress {
  import opened Prelude
  import Tunnels
  import ListField

  type Rule = Tunnels.Rule

  /** `hop` is every kind but the two built-ins'; `sub` is the subscription that made it, 0 for none. */
  datatype Outbound = Outbound(id: nat, tag: string, hop: bool, builtin: bool, position: int, sub: nat, mark: nat, settings: string, on: bool)

  datatype Balancer = Balancer(id: nat, tag: string, members: seq<string>, fallback: string)

  datatype Db = Db(outs: map<nat, Outbound>, bals: map<nat, Balancer>, rules: seq<Rule>,
                   nextOut: nat, nextBal: nat, nextRule: nat)

  /** What a form or a fetched link asks for; `kindOk` and `fieldsOk` are the checks on everything but the tag,
      and `on` is missing where nothing is said of the switch. */
  datatype Input = Input(tag: string, kindOk: bool, fieldsOk: bool, settings: string, on: Option<bool>)

  datatype Failure = NotFound | Invalid | NoMark

  type Outcome = Result<nat, Failure>

  const DIRECT := "direct"
  const BLOCKED := "blocked"
  const MAX_MARKED := 0xFFF0
  const MARK_BASE := 0xA7_0000
  const BALANCER_MARKS := 0x8000

  // ---- tags ----

  predicate White(c: char) {
    c == ' ' || c == '\t' || c == '\n' || c == '\r'
  }

  function TrimLeft(s: string): string {
    if s != [] && White(s[0]) then TrimLeft(s[1..]) else s
  }

  function TrimRight(s: string): string {
    if s != [] && White(s[|s| - 1]) then TrimRight(s[..|s| - 1]) else s
  }

  function Trim(s: string): string {
    TrimRight(TrimLeft(s))
  }

  predicate TagChar(c: char) {
    'a' <= c <= 'z' || 'A' <= c <= 'Z' || '0' <= c <= '9' || c == '-' || c == '_'
  }

  predicate GoodTag(t: string) {
    t != [] && |t| <= 64 && forall i :: 0 <= i < |t| ==> TagChar(t[i])
  }

  function LowerChar(c: char): char {
    if 'A' <= c <= 'Z' then 'a' + (c - 'A') else c
  }

  function Lower(s: string): string {
    seq(|s|, i requires 0 <= i < |s| => LowerChar(s[i]))
  }

  /** A tag of good characters has nothing to trim. */
  lemma GoodTagIsTrimmed(t: string)
    requires GoodTag(t)
    ensures Trim(t) == t
  {
    assert TagChar(t[0]) && TagChar(t[|t| - 1]);
  }

  predicate OutTag(db: Db, t: string) {
    exists id :: id in db.outs && db.outs[id].tag == t
  }

  predicate BalTag(db: Db, t: string) {
    exists id :: id in db.bals && db.bals[id].tag == t
  }

  /** `targetExists`: some outbound or some balancer has the tag. */
  predicate Target(db: Db, t: string) {
    OutTag(db, t) || BalTag(db, t)
  }

  predicate RuleUses(db: Db, t: string) {
    exists i :: 0 <= i < |db.rules| && db.rules[i].tag == t
  }

  predicate MemberOf(db: Db, t: string) {
    exists id :: id in db.bals && t in db.bals[id].members
  }

  // ---- outbounds ----

  /** The tag an outbound is saved under, where the form may be saved at all; `self` is 0 for a new one. */
  function Validated(db: Db, input: Input, self: nat): Option<string> {
    var t := Trim(input.tag);
    if !GoodTag(t) || ((t == DIRECT || t == BLOCKED) && self == 0) || !input.kindOk then None
    else if exists id :: id in db.outs && (self == 0 || id != self) && Lower(db.outs[id].tag) == Lower(t) then None
    else if !input.fieldsOk then None
    else Some(t)
  }

  lemma {:induction false} LastOf(outs: map<nat, Outbound>, ks: set<nat>) returns (m: nat)
    requires ks <= outs.Keys && ks != {}
    ensures m in ks && forall k :: k in ks ==> outs[k].position <= outs[m].position
    decreases |ks|
  {
    var first :| first in ks;
    m := first;
    var rest := ks - {first};
    assert forall k :: k in ks ==> k == first || k in rest;
    if rest != {} {
      var n := LastOf(outs, rest);
      m := if outs[first].position > outs[n].position then first else n;
    }
  }

  ghost predicate IsLast(outs: map<nat, Outbound>, m: nat) {
    m in outs && forall k :: k in outs ==> outs[k].position <= outs[m].position
  }

  lemma LastExists(outs: map<nat, Outbound>)
    requires outs != map[]
    ensures exists m :: IsLast(outs, m)
  {
    var m := LastOf(outs, outs.Keys);
    assert IsLast(outs, m);
  }

  /** One past the last position; 1 in an empty table. */
  ghost function NextPosition(outs: map<nat, Outbound>): int {
    if outs == map[] then 1
    else
      LastExists(outs);
      var m :| IsLast(outs, m);
      outs[m].position + 1
  }

  ghost function Create(db: Db, input: Input): (Db, Outcome) {
    var t := Validated(db, input, 0);
    if t.None? then (db, Err(Invalid))
    else
      var id := db.nextOut;
      // An outbound that cannot be given a mark is taken back.
      if id > MAX_MARKED then (db.(nextOut := id + 1), Err(NoMark))
      else
        // A false is left out of the insert, and the column is on by default.
        var row := Outbound(id, t.value, true, false, NextPosition(db.outs), 0, MARK_BASE + id, input.settings, true);
        (db.(outs := db.outs[id := row], nextOut := id + 1), Ok(id))
  }

  function Renamed(rules: seq<Rule>, old_: string, new_: string): (r: seq<Rule>)
    ensures |r| == |rules|
    ensures forall i :: 0 <= i < |r| ==> r[i] == if rules[i].tag == old_ then rules[i].(tag := new_) else rules[i]
  {
    seq(|rules|, i requires 0 <= i < |rules| => if rules[i].tag == old_ then rules[i].(tag := new_) else rules[i])
  }

  function Update(db: Db, id: nat, input: Input): (Db, Outcome) {
    if id !in db.outs then (db, Err(NotFound))
    else
      var row := db.outs[id];
      if row.builtin then (db, if input.on == Some(false) then Err(Invalid) else Ok(id)) // only its note moves
      else
        var t := Validated(db, input, id);
        if t.None? then (db, Err(Invalid))
        else
          var row' := row.(tag := t.value, settings := input.settings, on := if input.on.Some? then input.on.value else row.on);
          (db.(outs := db.outs[id := row'],
               rules := if t.value != row.tag then Renamed(db.rules, row.tag, t.value) else db.rules), Ok(id))
  }

  predicate Deletable(db: Db, row: Outbound) {
    !row.builtin && !RuleUses(db, row.tag) && !MemberOf(db, row.tag)
  }

  function Delete(db: Db, id: nat): (Db, Outcome) {
    if id !in db.outs then (db, Err(NotFound))
    else if !Deletable(db, db.outs[id]) then (db, Err(Invalid))
    else (db.(outs := db.outs - {id}), Ok(id))
  }

  function SetOrigin(db: Db, id: nat, sub: nat): Db {
    if id in db.outs then db.(outs := db.outs[id := db.outs[id].(sub := sub)]) else db
  }

  /** The table with the rows in `ids` numbered from `at` in that order. */
  function Positioned(outs: map<nat, Outbound>, ids: seq<nat>, at: nat): map<nat, Outbound>
    decreases |ids|
  {
    if ids == [] then outs
    else
      var outs' := if ids[0] in outs then outs[ids[0] := outs[ids[0]].(position := at)] else outs;
      Positioned(outs', ids[1..], at + 1)
  }

  // ---- balancers ----

  datatype BalancerInput = BalancerInput(tag: string, strategyOk: bool, members: seq<string>, fallback: string)

  predicate HopTag(db: Db, t: string) {
    exists id :: id in db.outs && db.outs[id].tag == t && db.outs[id].hop
  }

  /** The distinct members, trimmed, without the empty ones. */
  function CleanMembers(ms: seq<string>, seen: set<string>): seq<string>
    decreases |ms|
  {
    if ms == [] then []
    else
      var m := Trim(ms[0]);
      if m == "" || m in seen then CleanMembers(ms[1..], seen) else [m] + CleanMembers(ms[1..], seen + {m})
  }

  function ValidatedBalancer(db: Db, input: BalancerInput, self: nat): Option<Balancer> {
    var t := Trim(input.tag);
    var fb := Trim(input.fallback);
    var ms := CleanMembers(input.members, {});
    if t == "" || !(forall i :: 0 <= i < |t| ==> TagChar(t[i])) || !input.strategyOk then None
    else if exists id :: id in db.outs && Lower(db.outs[id].tag) == Lower(t) then None
    else if exists id :: id in db.bals && (self == 0 || id != self) && Lower(db.bals[id].tag) == Lower(t) then None
    else if fb != "" && !HopTag(db, fb) then None
    else if ms == [] || !(forall i :: 0 <= i < |ms| ==> HopTag(db, ms[i])) then None
    else Some(Balancer(self, t, ms, fb))
  }

  function CreateBalancer(db: Db, input: BalancerInput): (Db, Outcome) {
    var b := ValidatedBalancer(db, input, 0);
    if b.None? then (db, Err(Invalid))
    else
      var id := db.nextBal;
      if BALANCER_MARKS + id > MAX_MARKED then (db.(nextBal := id + 1), Err(NoMark))
      else (db.(bals := db.bals[id := b.value.(id := id)], nextBal := id + 1), Ok(id))
  }

  function UpdateBalancer(db: Db, id: nat, input: BalancerInput): (Db, Outcome) {
    if id !in db.bals then (db, Err(NotFound))
    else
      var b := ValidatedBalancer(db, input, id);
      if b.None? then (db, Err(Invalid))
      else
        var old_ := db.bals[id].tag;
        (db.(bals := db.bals[id := b.value],
             rules := if b.value.tag != old_ then Renamed(db.rules, old_, b.value.tag) else db.rules), Ok(id))
  }

  function DeleteBalancer(db: Db, id: nat): (Db, Outcome) {
    if id !in db.bals then (db, Err(NotFound))
    else if RuleUses(db, db.bals[id].tag) then (db, Err(Invalid))
    else (db.(bals := db.bals - {id}), Ok(id))
  }

  // ---- rules ----

  /** `ok` is every check of a rule but the one on its target. */
  function CreateRule(db: Db, rule: Rule, ok: bool): (Db, Outcome) {
    if !ok || !Target(db, rule.tag) then (db, Err(Invalid))
    else (db.(rules := db.rules + [rule.(id := db.nextRule)], nextRule := db.nextRule + 1), Ok(db.nextRule))
  }

  function UpdateRule(db: Db, at: nat, rule: Rule, ok: bool): (Db, Outcome) {
    if at >= |db.rules| then (db, Err(NotFound))
    else if !ok || !Target(db, rule.tag) then (db, Err(Invalid))
    else (db.(rules := db.rules[at := rule.(id := db.rules[at].id)]), Ok(at))
  }

  function DeleteRule(db: Db, id: nat): Db {
    db.(rules := Tunnels.Deleted(db.rules, id))
  }

  /** `SetTunnels`, where `tunnels` are the interfaces there are. */
  function SetTunnels(db: Db, tag: string, ids: seq<nat>, tunnels: set<nat>): (Db, Outcome) {
    var list := Tunnels.Listed(ids);
    if (exists id :: id in ids && id !in tunnels) || (ids != [] && !Target(db, DIRECT)) then (db, Err(Invalid))
    else if Target(db, tag) || ids == [] || Tunnels.Own(db.rules, tag).Some? then
      var made := Tunnels.Rule(db.nextRule, tag + " tunnels", true, ListField.Join(list), Tunnels.NO_CRITERIA, tag);
      (db.(rules := Tunnels.SetRules(db.rules, tag, list, made, false), nextRule := db.nextRule + 1), Ok(0))
    else
      (db.(rules := Tunnels.Walked(db.rules, tag, list, false)), Err(Invalid))
  }

  // ---- every rule's target exists ----

  /** No tag is taken twice in one table, whatever its case; the built-in way out is there, and the built-ins are
      on; ids are below the counters. */
  ghost predicate Tables(db: Db) {
    && db.nextOut > 0 && db.nextBal > 0
    && (forall id :: id in db.outs ==> 0 < id < db.nextOut && db.outs[id].id == id && GoodTag(db.outs[id].tag))
    && (forall id :: id in db.bals ==> 0 < id < db.nextBal)
    && (forall i, j :: i in db.outs && j in db.outs && i != j ==> Lower(db.outs[i].tag) != Lower(db.outs[j].tag))
    && (forall i, j :: i in db.bals && j in db.bals && i != j ==> Lower(db.bals[i].tag) != Lower(db.bals[j].tag))
    && (exists id :: id in db.outs && db.outs[id].builtin && db.outs[id].tag == DIRECT)
    && (forall id :: id in db.outs && db.outs[id].builtin ==> db.outs[id].on)
  }

  ghost predicate Grounded(db: Db) {
    forall i :: 0 <= i < |db.rules| ==> Target(db, db.rules[i].tag)
  }

  lemma ValidatedFacts(db: Db, input: Input, self: nat)
    requires Validated(db, input, self).Some?
    ensures var t := Validated(db, input, self).value;
            && GoodTag(t) && t == Trim(input.tag)
            && forall id :: id in db.outs && (self == 0 || id != self) ==> Lower(db.outs[id].tag) != Lower(t)
  {
  }

  lemma NewRowKeeps(db: Db, row: Outbound)
    requires Tables(db) && Grounded(db) && row.id == db.nextOut && GoodTag(row.tag) && row.on
    requires forall id :: id in db.outs ==> Lower(db.outs[id].tag) != Lower(row.tag)
    ensures var db' := db.(outs := db.outs[row.id := row], nextOut := row.id + 1); Tables(db') && Grounded(db')
  {
    var db' := db.(outs := db.outs[row.id := row], nextOut := row.id + 1);
    forall t | Target(db, t) ensures Target(db', t) {
      if OutTag(db, t) {
        var id :| id in db.outs && db.outs[id].tag == t;
        assert id in db'.outs && db'.outs[id].tag == t;
      } else {
        assert BalTag(db', t);
      }
    }
    var id :| id in db.outs && db.outs[id].builtin && db.outs[id].tag == DIRECT;
    assert id in db'.outs && db'.outs[id].builtin && db'.outs[id].tag == DIRECT;
  }

  /** A row as `Create` adds it: with the next id, under the tag asked for, which no other outbound has. */
  ghost predicate Fresh(db: Db, input: Input, row: Outbound) {
    && row.id == db.nextOut && row.tag == Trim(input.tag) && GoodTag(row.tag) && !row.builtin && row.sub == 0 && row.on
    && forall id :: id in db.outs ==> Lower(db.outs[id].tag) != Lower(row.tag)
  }

  lemma CreateShape(db: Db, input: Input)
    ensures var (db', o) := Create(db, input);
            && (o.Err? ==> db' == db || db' == db.(nextOut := db.nextOut + 1))
            && (o.Ok? ==> o.value == db.nextOut
                          && exists row :: Fresh(db, input, row) && db' == db.(outs := db.outs[row.id := row], nextOut := row.id + 1))
  {
    if Validated(db, input, 0).Some? && db.nextOut <= MAX_MARKED {
      ValidatedFacts(db, input, 0);
      var row := Outbound(db.nextOut, Validated(db, input, 0).value, true, false, NextPosition(db.outs), 0,
                          MARK_BASE + db.nextOut, input.settings, true);
      assert Fresh(db, input, row) && Create(db, input).0 == db.(outs := db.outs[row.id := row], nextOut := row.id + 1);
    }
  }

  lemma CreateKeeps(db: Db, input: Input)
    requires Tables(db) && Grounded(db)
    ensures var db' := Create(db, input).0; Tables(db') && Grounded(db')
  {
    hide Create, Tables, Grounded;
    CreateShape(db, input);
    var (db', o) := Create(db, input);
    if o.Ok? {
      var row :| Fresh(db, input, row) && db' == db.(outs := db.outs[row.id := row], nextOut := row.id + 1);
      NewRowKeeps(db, row);
    } else {
      CounterKeeps(db, db.nextOut + 1);
    }
  }

  /** A new outbound is switched as it was asked to be exactly when it was to be on: one asked for switched
      off is on. */
  lemma CreatedAsAskedExactlyWhenOn(db: Db, input: Input)
    requires Create(db, input).1.Ok?
    ensures var (db', o) := Create(db, input);
            var asked := input.on != Some(false);
            o.value in db'.outs && (db'.outs[o.value].on == asked <==> asked)
  {
    hide Create;
    CreateShape(db, input);
  }

  lemma CounterKeeps(db: Db, n: nat)
    requires Tables(db) && Grounded(db) && n >= db.nextOut
    ensures Tables(db.(nextOut := n)) && Grounded(db.(nextOut := n))
  {
    var db' := db.(nextOut := n);
    forall t | Target(db, t) ensures Target(db', t) {
      assert OutTag(db', t) <==> OutTag(db, t);
    }
  }

  /** Renaming a row carries every rule that used its tag. */
  lemma UpdateKeeps(db: Db, id: nat, input: Input)
    requires Tables(db) && Grounded(db)
    ensures var db' := Update(db, id, input).0; Tables(db') && Grounded(db')
  {
    var db' := Update(db, id, input).0;
    if db' != db {
      var old_, new_ := db.outs[id].tag, db'.outs[id].tag;
      assert id in db'.outs && db'.outs[id].tag == new_;
      forall t | Target(db, t) && t != old_ ensures Target(db', t) {
        if OutTag(db, t) {
          var k :| k in db.outs && db.outs[k].tag == t;
          assert k in db'.outs && db'.outs[k].tag == t;
        }
      }
      var k :| k in db.outs && db.outs[k].builtin && db.outs[k].tag == DIRECT;
      assert k in db'.outs && db'.outs[k].builtin;
    }
  }

  lemma DeleteKeeps(db: Db, id: nat)
    requires Tables(db) && Grounded(db)
    ensures var db' := Delete(db, id).0; Tables(db') && Grounded(db')
  {
    var db' := Delete(db, id).0;
    if db' != db {
      forall i | 0 <= i < |db.rules| ensures Target(db', db'.rules[i].tag) {
        var t := db.rules[i].tag;
        if OutTag(db, t) {
          var k :| k in db.outs && db.outs[k].tag == t;
          assert k in db'.outs && db'.outs[k].tag == t;
        }
      }
      var k :| k in db.outs && db.outs[k].builtin && db.outs[k].tag == DIRECT;
      assert k in db'.outs && db'.outs[k].builtin;
    }
  }

  /** Changes to rows that keep every id, tag and switch. */
  lemma SameTagsKeep(db: Db, db': Db)
    requires Tables(db) && Grounded(db)
    requires db'.bals == db.bals && db'.rules == db.rules && db'.nextOut == db.nextOut && db'.nextBal == db.nextBal
    requires db'.outs.Keys == db.outs.Keys
    requires forall id :: id in db.outs ==>
               db'.outs[id].tag == db.outs[id].tag && db'.outs[id].id == id && db'.outs[id].builtin == db.outs[id].builtin
               && db'.outs[id].on == db.outs[id].on
    ensures Tables(db') && Grounded(db')
  {
    forall t | Target(db, t) ensures Target(db', t) {
      if OutTag(db, t) {
        var k :| k in db.outs && db.outs[k].tag == t;
        assert k in db'.outs && db'.outs[k].tag == t;
      }
    }
    var k :| k in db.outs && db.outs[k].builtin && db.outs[k].tag == DIRECT;
    assert k in db'.outs && db'.outs[k].builtin && db'.outs[k].tag == DIRECT;
  }

  lemma CreateBalancerKeeps(db: Db, input: BalancerInput)
    requires Tables(db) && Grounded(db)
    ensures var db' := CreateBalancer(db, input).0; Tables(db') && Grounded(db')
  {
    var db' := CreateBalancer(db, input).0;
    forall t | Target(db, t) ensures Target(db', t) {
      if BalTag(db, t) {
        var k :| k in db.bals && db.bals[k].tag == t;
        assert k in db'.bals && db'.bals[k].tag == t;
      } else {
        var k :| k in db.outs && db.outs[k].tag == t;
        assert k in db'.outs && db'.outs[k].tag == t;
      }
    }
  }

  lemma UpdateBalancerKeeps(db: Db, id: nat, input: BalancerInput)
    requires Tables(db) && Grounded(db)
    ensures var db' := UpdateBalancer(db, id, input).0; Tables(db') && Grounded(db')
  {
    var db' := UpdateBalancer(db, id, input).0;
    if db' != db {
      var old_, new_ := db.bals[id].tag, db'.bals[id].tag;
      assert id in db'.bals && db'.bals[id].tag == new_;
      forall t | Target(db, t) && t != old_ ensures Target(db', t) {
        if BalTag(db, t) {
          var k :| k in db.bals && db.bals[k].tag == t;
          assert k in db'.bals && db'.bals[k].tag == t;
        } else {
          var k :| k in db.outs && db.outs[k].tag == t;
          assert k in db'.outs && db'.outs[k].tag == t;
        }
      }
    }
  }

  lemma DeleteBalancerKeeps(db: Db, id: nat)
    requires Tables(db) && Grounded(db)
    ensures var db' := DeleteBalancer(db, id).0; Tables(db') && Grounded(db')
  {
    var db' := DeleteBalancer(db, id).0;
    if db' != db {
      forall i | 0 <= i < |db.rules| ensures Target(db', db'.rules[i].tag) {
        var t := db.rules[i].tag;
        if BalTag(db, t) {
          var k :| k in db.bals && db.bals[k].tag == t;
          assert k in db'.bals && db'.bals[k].tag == t;
        } else {
          assert OutTag(db', t);
        }
      }
    }
  }

  /** Rules that point where rules pointed before, or at a target there is. */
  lemma RulesKeep(db: Db, rules: seq<Rule>, nextRule: nat, extra: string)
    requires Tables(db) && Grounded(db)
    requires forall r :: r in rules ==> r.tag == extra || exists i :: 0 <= i < |db.rules| && db.rules[i].tag == r.tag
    requires (forall r :: r in rules ==> r.tag != extra) || Target(db, extra)
    ensures var db' := db.(rules := rules, nextRule := nextRule); Tables(db') && Grounded(db')
  {
    var db' := db.(rules := rules, nextRule := nextRule);
    forall i | 0 <= i < |rules| ensures Target(db', rules[i].tag) {
      var r := rules[i];
      assert r in rules;
      if r.tag != extra {
        var k :| 0 <= k < |db.rules| && db.rules[k].tag == r.tag;
        assert Target(db, db.rules[k].tag);
      }
      assert Target(db, r.tag);
      assert OutTag(db', r.tag) <==> OutTag(db, r.tag);
      assert BalTag(db', r.tag) <==> BalTag(db, r.tag);
    }
  }

  ghost predicate TagsWithin(rules: seq<Rule>, of: seq<Rule>, extra: Option<string>) {
    forall r :: r in rules ==> Some(r.tag) == extra || exists i :: 0 <= i < |of| && of[i].tag == r.tag
  }

  lemma {:induction false} SetRulesTags(rules: seq<Rule>, tag: string, list: seq<string>, made: Rule, found: bool)
    requires made.tag == tag
    ensures TagsWithin(Tunnels.SetRules(rules, tag, list, made, found), rules,
                       if list == [] && !found && Tunnels.Own(rules, tag).None? then None else Some(tag))
    ensures TagsWithin(Tunnels.Walked(rules, tag, list, found), rules, None)
  {
    if rules == [] {
      return;
    }
    var r, rest := rules[0], rules[1..];
    var found' := found || (Tunnels.TunnelOnly(r) && r.tag == tag);
    SetRulesTags(rest, tag, list, made, found');
    var set1, walk1 := Tunnels.SetRules(rest, tag, list, made, found'), Tunnels.Walked(rest, tag, list, found');
    var set0, walk0 := Tunnels.SetRules(rules, tag, list, made, found), Tunnels.Walked(rules, tag, list, found);
    forall x | x in set0 && x !in set1 ensures x.tag == r.tag {
    }
    forall x | x in walk0 && x !in walk1 ensures x.tag == r.tag {
    }
    assert rules[0].tag == r.tag;
    assert forall i :: 0 <= i < |rest| ==> rest[i] == rules[i + 1];
  }
}
