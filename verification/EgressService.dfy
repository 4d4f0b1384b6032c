/** The outbound and subscription services, as they change the tables step by step. */
module EgressService {
  import opened Prelude
  import opened Egress
  import opened Subscriptions

  lemma NextAfterLast(outs: map<nat, Outbound>, last: nat)
    requires IsLast(outs, last)
    ensures NextPosition(outs) == outs[last].position + 1
  {
  }

  class Service {
    var db: Db

    constructor (db: Db)
      ensures this.db == db
    {
      this.db := db;
    }

    method CreateOutbound(input: Input) returns (r: Outcome)
      requires db.nextOut !in db.outs
      modifies this
      ensures (db, r) == Create(old(db), input)
    {
      var t := Validated(db, input, 0);
      if t.None? {
        return Err(Invalid);
      }
      var position := 1;
      if db.outs != map[] {
        LastExists(db.outs);
        var last :| last in db.outs && forall k | k in db.outs :: db.outs[k].position <= db.outs[last].position;
        assert IsLast(db.outs, last);
        NextAfterLast(db.outs, last);
        position := db.outs[last].position + 1;
      }
      var id := db.nextOut;
      var row := Outbound(id, t.value, true, false, position, 0, 0, input.settings, true);
      db := db.(outs := db.outs[id := row], nextOut := id + 1);
      if id > MAX_MARKED {
        // No mark is left for this id, so the row goes again.
        db := db.(outs := db.outs - {id});
        assert db.outs == old(db).outs;
        return Err(NoMark);
      }
      db := db.(outs := db.outs[id := row.(mark := MARK_BASE + id)]);
      assert db.outs == old(db).outs[id := row.(mark := MARK_BASE + id)];
      return Ok(id);
    }

    /** Point every rule that used one tag at another. */
    method RenameRules(old_: string, new_: string)
      modifies this
      ensures db == old(db).(rules := Renamed(old(db).rules, old_, new_))
    {
      var rules := db.rules;
      for i := 0 to |rules|
        invariant |rules| == |old(db).rules| && db == old(db)
        invariant forall k :: i <= k < |rules| ==> rules[k] == old(db).rules[k]
        invariant forall k :: 0 <= k < i ==> rules[k] == Renamed(old(db).rules, old_, new_)[k]
      {
        if rules[i].tag == old_ {
          rules := rules[i := rules[i].(tag := new_)];
        }
      }
      assert rules == Renamed(old(db).rules, old_, new_);
      db := db.(rules := rules);
    }

    method UpdateOutbound(id: nat, input: Input) returns (r: Outcome)
      modifies this
      ensures (db, r) == Update(old(db), id, input)
    {
      if id !in db.outs {
        return Err(NotFound);
      }
      var row := db.outs[id];
      if row.builtin {
        if input.on == Some(false) {
          return Err(Invalid);
        }
        return Ok(id);
      }
      var t := Validated(db, input, id);
      if t.None? {
        return Err(Invalid);
      }
      db := db.(outs := db.outs[id := row.(tag := t.value, settings := input.settings, on := if input.on.Some? then input.on.value else row.on)]);
      if t.value != row.tag {
        RenameRules(row.tag, t.value);
      }
      return Ok(id);
    }

    /** Refused while a rule points at it or a balancer lists it. */
    method DeleteOutbound(id: nat) returns (r: Outcome)
      modifies this
      ensures (db, r) == Delete(old(db), id)
    {
      if id !in db.outs {
        return Err(NotFound);
      }
      var row := db.outs[id];
      if row.builtin {
        return Err(Invalid);
      }
      var rules := 0;
      for i := 0 to |db.rules|
        invariant db == old(db)
        invariant rules > 0 <==> exists k :: 0 <= k < i && db.rules[k].tag == row.tag
        invariant rules >= 0
      {
        if db.rules[i].tag == row.tag {
          rules := rules + 1;
        }
      }
      if rules > 0 {
        return Err(Invalid);
      }
      var todo := db.bals.Keys;
      while todo != {}
        invariant db == old(db) && todo <= db.bals.Keys
        invariant forall b :: b in db.bals && b !in todo ==> row.tag !in db.bals[b].members
        decreases todo
      {
        var b :| b in todo;
        if row.tag in db.bals[b].members {
          assert MemberOf(db, row.tag);
          return Err(Invalid);
        }
        todo := todo - {b};
      }
      assert Deletable(db, row);
      db := db.(outs := db.outs - {id});
      return Ok(id);
    }

    method Reorder(ids: seq<nat>)
      modifies this
      ensures db == old(db).(outs := Positioned(old(db).outs, ids, 0))
    {
      for i := 0 to |ids|
        invariant db == old(db).(outs := db.outs)
        invariant Positioned(db.outs, ids[i..], i) == Positioned(old(db).outs, ids, 0)
      {
        assert ids[i..][1..] == ids[i + 1..] && ids[i..][0] == ids[i];
        if ids[i] in db.outs {
          db := db.(outs := db.outs[ids[i] := db.outs[ids[i]].(position := i)]);
        }
      }
    }

    /** The outbounds in the order they are listed. */
    method List() returns (l: seq<nat>)
      requires Keyed(db.outs)
      ensures l == Listing(db.outs)
    {
      l := [];
      var todo := db.outs.Keys;
      while todo != {}
        invariant todo <= db.outs.Keys
        invariant (forall id :: id in l ==> id in db.outs && id !in todo) && (forall id :: id in db.outs ==> id in l || id in todo)
        invariant Sorted(db.outs, l)
        invariant forall id, k :: id in l && k in todo ==> ListedBefore(db.outs[id], db.outs[k])
        decreases todo
      {
        ghost var first := FirstListed(db.outs, todo);
        var m :| m in todo && forall k | k in todo && k != m :: ListedBefore(db.outs[m], db.outs[k]);
        l := l + [m];
        todo := todo - {m};
      }
      ListingUnique(db.outs, db.outs.Keys, l, Listing(db.outs));
    }

    method PrependOutbounds(ids: seq<nat>)
      requires Keyed(db.outs)
      modifies this
      ensures db == Prepend(old(db), ids)
    {
      var all := List();
      var rest := [];
      assert all[..0] == [];
      for i := 0 to |all|
        invariant rest == Others(all[..i], ids) && db == old(db)
      {
        OthersConcat(all[..i], [all[i]], ids);
        assert all[..i + 1] == all[..i] + [all[i]];
        assert [all[i]][1..] == [];
        if all[i] !in ids {
          rest := rest + [all[i]];
        } else {
          assert rest + [] == rest;
        }
      }
      assert all[..|all|] == all;
      var at := 0;
      while at < |rest| && rest[at] in db.outs && db.outs[rest[at]].builtin
        invariant at <= |rest| && db == old(db)
        invariant Leading(db.outs, rest) == at + Leading(db.outs, rest[at..])
      {
        assert rest[at..][1..] == rest[at + 1..];
        at := at + 1;
      }
      if at == 0 && rest != [] {
        at := 1;
      }
      assert at == PrependAt(db.outs, rest);
      Reorder(rest[..at] + ids + rest[at..]);
    }

    /** One row a subscription made: kept by its tag, deleted, or detached where it may not be. */
    method RemoveOne(sub: nat, keep: set<string>, id: nat)
      requires id in db.outs && db.outs[id].sub == sub
      modifies this
      ensures db == old(db).(outs := db.outs) && RemovedRow(old(db), db.outs, sub, keep, id)
      ensures db.outs - {id} == old(db).outs - {id}
    {
      if db.outs[id].tag !in keep {
        var r := DeleteOutbound(id);
        if r.Err? {
          db := SetOrigin(db, id, 0);
        }
      }
    }

    /** Take away what a subscription made, but for the tags kept. */
    method RemoveMade(sub: nat, keep: set<string>)
      modifies this
      ensures db == RemoveProduced(old(db), sub, keep)
    {
      var todo := set id | id in db.outs && db.outs[id].sub == sub;
      while todo != {}
        invariant todo <= old(db).outs.Keys && forall id :: id in todo ==> old(db).outs[id].sub == sub
        invariant db == old(db).(outs := db.outs)
        invariant forall id :: id in old(db).outs && (id in todo || old(db).outs[id].sub != sub) ==>
                    id in db.outs && db.outs[id] == old(db).outs[id]
        invariant forall id :: id in db.outs ==> id in old(db).outs
        invariant forall id :: id in old(db).outs && id !in todo ==> RemovedRow(old(db), db.outs, sub, keep, id)
        decreases todo
      {
        var id :| id in todo;
        ghost var before := db;
        RemoveOne(sub, keep, id);
        assert forall k :: k != id ==> (k in db.outs <==> k in db.outs - {id}) && (k in before.outs <==> k in before.outs - {id});
        assert forall k :: k != id && k in before.outs ==> k in before.outs - {id} && (db.outs - {id})[k] == (before.outs - {id})[k];
        SameRemoval(old(db), before, db.outs, sub, keep, id);
        todo := todo - {id};
      }
      assert db.outs == RemoveProduced(old(db), sub, keep).outs;
    }

    /** The rows a subscription has, by tag. */
    method ByTag(sub: nat) returns (known: map<string, nat>)
      requires Tables(db)
      ensures forall t :: Known(db, sub, t) == if t in known then Some(known[t]) else None
    {
      known := map[];
      var todo := set id | id in db.outs && db.outs[id].sub == sub;
      while todo != {}
        invariant todo <= db.outs.Keys && forall id :: id in todo ==> Owns(db, sub, id)
        invariant forall t :: t in known ==> Owns(db, sub, known[t]) && db.outs[known[t]].tag == t
        invariant forall id :: Owns(db, sub, id) && id !in todo ==> db.outs[id].tag in known
        decreases todo
      {
        var id :| id in todo;
        known := known[db.outs[id].tag := id];
        todo := todo - {id};
      }
      forall t ensures Known(db, sub, t) == if t in known then Some(known[t]) else None {
        KnownFacts(db, sub, t);
        if t in known {
          KnownIs(db, sub, known[t]);
        }
      }
    }

    /** Reconcile a subscription's rows with what was fetched; how many of the links failed is returned. */
    method RefreshNow(sub: nat, prefix: string, prepend: bool, items: seq<Input>) returns (problems: nat)
      requires Tables(db) && Grounded(db)
      modifies this
      ensures (db, problems) == Refresh(old(db), sub, prefix, prepend, items)
    {
      hide Update, Create, Grounded, FetchedTag;
      var known := ByTag(sub);
      var keep: set<string> := {};
      var ids: seq<nat>, created: seq<nat> := [], [];
      problems := 0;
      for i := 0 to |items|
        invariant keep == Kept(prefix, items[..i])
        invariant Progress(db, ids, created, problems) == RefreshItems(old(db), sub, prefix, items[..i])
      {
        ghost var p := Progress(db, ids, created, problems);
        ItemsReconcile(old(db), sub, prefix, items[..i]);
        assert items[..i + 1][..i] == items[..i];
        KeptOneMore(prefix, items[..i + 1]);
        var t := FetchedTag(prefix, items[i]);
        keep := keep + {t};
        problems, ids, created := FetchOne(sub, items[i].(tag := t), if t in known then Some(known[t]) else None, ids, created, problems);
        assert Progress(db, ids, created, problems) == RefreshItem(p, old(db), sub, prefix, items[i]);
      }
      assert items[..|items|] == items;
      RemoveMade(sub, keep);
      if prepend && created != [] {
        ItemsReconcile(old(db), sub, prefix, items);
        RemoveProducedKeeps(RefreshItems(old(db), sub, prefix, items).db, sub, keep);
        PrependOutbounds(created);
      }
    }

    /** One fetched link: its row updated in place, or made and marked as the subscription's. */
    method FetchOne(sub: nat, input: Input, have: Option<nat>, ids: seq<nat>, created: seq<nat>, problems: nat)
      returns (problems': nat, ids': seq<nat>, created': seq<nat>)
      requires db.nextOut !in db.outs
      modifies this
      ensures have.Some? ==> var (d, o) := Update(old(db), have.value, input);
                db == d && created' == created
                && (if o.Ok? then ids' == ids + [have.value] && problems' == problems else ids' == ids && problems' == problems + 1)
      ensures have.None? ==> var (d, o) := Create(old(db), input);
                if o.Ok? then db == SetOrigin(d, o.value, sub) && ids' == ids + [o.value] && created' == created + [o.value] && problems' == problems
                else db == d && ids' == ids && created' == created && problems' == problems + 1
    {
      problems', ids', created' := problems, ids, created;
      if have.Some? {
        var r := UpdateOutbound(have.value, input);
        if r.Err? {
          problems' := problems + 1;
        } else {
          ids' := ids + [have.value];
        }
      } else {
        var r := CreateOutbound(input);
        if r.Err? {
          problems' := problems + 1;
        } else {
          db := SetOrigin(db, r.value, sub);
          ids' := ids + [r.value];
          created' := created + [r.value];
        }
      }
    }
  }

  /** The row a subscription has under a tag is the only one. */
  lemma KnownIs(db: Db, sub: nat, id: nat)
    requires Tables(db) && Owns(db, sub, id)
    ensures Known(db, sub, db.outs[id].tag) == Some(id)
  {
    KnownFacts(db, sub, db.outs[id].tag);
  }

  /** What removal makes of one row. */
  ghost predicate RemovedRow(db: Db, outs: map<nat, Outbound>, sub: nat, keep: set<string>, id: nat)
    requires id in db.outs
  {
    var row := db.outs[id];
    if row.sub != sub || row.tag in keep then id in outs && outs[id] == row
    else if Deletable(db, row) then id !in outs
    else id in outs && outs[id] == row.(sub := 0)
  }

  /** Removing other rows does not change whether one may be deleted. */
  lemma SameRemoval(start: Db, now: Db, outs: map<nat, Outbound>, sub: nat, keep: set<string>, id: nat)
    requires id in start.outs && id in now.outs && now.outs[id] == start.outs[id]
    requires now.rules == start.rules && now.bals == start.bals
    ensures RemovedRow(now, outs, sub, keep, id) == RemovedRow(start, outs, sub, keep, id)
  {
    assert RuleUses(now, start.outs[id].tag) == RuleUses(start, start.outs[id].tag);
    assert MemberOf(now, start.outs[id].tag) == MemberOf(start, start.outs[id].tag);
  }
}
