/**
  Refreshing an outbound subscription: its rows are reconciled with what was
  fetched, and its new rows are put near the top of the list.
 */
module Subscriptions {
  import opened Prelude
  import opened Egress

  // ---- subscriptions ----

  /** How far a refresh has got: the rows made or updated, the new ones among them, and how many failed. */
  datatype Progress = Progress(db: Db, ids: seq<nat>, created: seq<nat>, problems: nat)

  ghost predicate Owns(db: Db, sub: nat, id: nat) {
    id in db.outs && db.outs[id].sub == sub
  }

  /** The row a subscription already has under a tag. */
  ghost function Known(db: Db, sub: nat, t: string): Option<nat> {
    if exists id :: Owns(db, sub, id) && db.outs[id].tag == t
    then var id :| Owns(db, sub, id) && db.outs[id].tag == t; Some(id)
    else None
  }

  /** The tag a fetched link is saved under: prefixed, and cut at 64. */
  function FetchedTag(prefix: string, item: Input): string {
    var t := prefix + item.tag;
    if |t| > 64 then t[..64] else t
  }

  ghost function RefreshItem(p: Progress, known: Db, sub: nat, prefix: string, item: Input): Progress {
    var input := item.(tag := FetchedTag(prefix, item));
    var id := Known(known, sub, input.tag);
    if id.Some? then
      var (db, o) := Update(p.db, id.value, input);
      if o.Ok? then p.(db := db, ids := p.ids + [id.value]) else p.(db := db, problems := p.problems + 1)
    else
      var (db, o) := Create(p.db, input);
      if o.Ok? then Progress(SetOrigin(db, o.value, sub), p.ids + [o.value], p.created + [o.value], p.problems)
      else p.(db := db, problems := p.problems + 1)
  }

  ghost function RefreshItems(known: Db, sub: nat, prefix: string, items: seq<Input>): Progress {
    if items == [] then Progress(known, [], [], 0)
    else RefreshItem(RefreshItems(known, sub, prefix, items[..|items| - 1]), known, sub, prefix, items[|items| - 1])
  }

  function Kept(prefix: string, items: seq<Input>): set<string> {
    set i | 0 <= i < |items| :: FetchedTag(prefix, items[i])
  }

  /** `removeProduced`: rows of the subscription with tags not kept are deleted, or detached where
      they may not be. */
  function RemoveProduced(db: Db, sub: nat, keep: set<string>): Db {
    db.(outs := map id | id in db.outs && (db.outs[id].sub != sub || db.outs[id].tag in keep || !Deletable(db, db.outs[id])) ::
      if db.outs[id].sub == sub && db.outs[id].tag !in keep then db.outs[id].(sub := 0) else db.outs[id])
  }

  // ---- the order outbounds are listed in ----

  predicate ListedBefore(a: Outbound, b: Outbound) {
    a.position < b.position || (a.position == b.position && a.id < b.id)
  }

  predicate Sorted(outs: map<nat, Outbound>, l: seq<nat>)
    requires forall id :: id in l ==> id in outs
  {
    forall i, j :: 0 <= i < j < |l| ==> ListedBefore(outs[l[i]], outs[l[j]])
  }

  ghost predicate IsListing(outs: map<nat, Outbound>, l: seq<nat>) {
    (forall id :: id in l <==> id in outs.Keys) && Sorted(outs, l)
  }

  ghost predicate Keyed(outs: map<nat, Outbound>) {
    forall id :: id in outs ==> outs[id].id == id
  }

  lemma {:induction false} ListingOf(outs: map<nat, Outbound>, ks: set<nat>) returns (l: seq<nat>)
    requires Keyed(outs) && ks <= outs.Keys
    ensures (forall id :: id in l <==> id in ks) && Sorted(outs, l)
    decreases |ks|
  {
    if ks == {} {
      return [];
    }
    var m := FirstListed(outs, ks);
    var rest := ListingOf(outs, ks - {m});
    l := [m] + rest;
  }

  lemma {:induction false} FirstListed(outs: map<nat, Outbound>, ks: set<nat>) returns (m: nat)
    requires Keyed(outs) && ks <= outs.Keys && ks != {}
    ensures m in ks && forall k :: k in ks && k != m ==> ListedBefore(outs[m], outs[k])
    decreases |ks|
  {
    var first :| first in ks;
    var rest := ks - {first};
    assert forall k :: k in ks ==> k == first || k in rest;
    m := first;
    if rest != {} {
      var n := FirstListed(outs, rest);
      m := if ListedBefore(outs[first], outs[n]) then first else n;
    }
  }

  ghost function Listing(outs: map<nat, Outbound>): (l: seq<nat>)
    requires Keyed(outs)
    ensures IsListing(outs, l)
  {
    assert exists l :: IsListing(outs, l) by {
      var l := ListingOf(outs, outs.Keys);
      assert IsListing(outs, l);
    }
    var l :| IsListing(outs, l);
    l
  }

  /** A table has one listing. */
  lemma {:induction false} ListingUnique(outs: map<nat, Outbound>, ks: set<nat>, a: seq<nat>, b: seq<nat>)
    requires ks <= outs.Keys
    requires (forall id :: id in a <==> id in ks) && (forall id :: id in b <==> id in ks)
    requires Sorted(outs, a) && Sorted(outs, b)
    ensures a == b
    decreases |a|
  {
    assert a != [] ==> a[0] in a;
    assert b != [] ==> b[0] in b;
    if a != [] && b != [] {
      if a[0] != b[0] {
        HeadBefore(outs, a, b[0]);
        HeadBefore(outs, b, a[0]);
      }
      assert a[0] !in a[1..] && b[0] !in b[1..];
      assert a == [a[0]] + a[1..] && b == [b[0]] + b[1..];
      ListingUnique(outs, ks - {a[0]}, a[1..], b[1..]);
    }
  }

  lemma HeadBefore(outs: map<nat, Outbound>, l: seq<nat>, k: nat)
    requires (forall id :: id in l ==> id in outs) && Sorted(outs, l) && k in l && k != l[0]
    ensures ListedBefore(outs[l[0]], outs[k]) && !ListedBefore(outs[k], outs[l[0]])
  {
    var j :| 0 <= j < |l| && l[j] == k;
  }

  function Others(l: seq<nat>, ids: seq<nat>): seq<nat> {
    if l == [] then [] else (if l[0] in ids then [] else [l[0]]) + Others(l[1..], ids)
  }

  /** How many rows lead a list before one that is not built in. */
  function Leading(outs: map<nat, Outbound>, l: seq<nat>): (n: nat)
    ensures n <= |l|
  {
    if l == [] || l[0] !in outs || !outs[l[0]].builtin then 0 else 1 + Leading(outs, l[1..])
  }

  function PrependAt(outs: map<nat, Outbound>, rest: seq<nat>): (at: nat)
    ensures at <= |rest| && (rest != [] ==> at >= 1)
  {
    var lead := Leading(outs, rest);
    if lead == 0 && rest != [] then 1 else lead
  }

  /** The order `prepend` asks for: the new ids after the built-ins that lead the rest, never first. */
  function PrependOrder(outs: map<nat, Outbound>, all: seq<nat>, ids: seq<nat>): seq<nat> {
    var rest := Others(all, ids);
    var at := PrependAt(outs, rest);
    rest[..at] + ids + rest[at..]
  }

  ghost function Prepend(db: Db, ids: seq<nat>): Db {
    if !Keyed(db.outs) then db
    else db.(outs := Positioned(db.outs, PrependOrder(db.outs, Listing(db.outs), ids), 0))
  }

  ghost function Refresh(db: Db, sub: nat, prefix: string, prepend: bool, items: seq<Input>): (Db, nat) {
    var p := RefreshItems(db, sub, prefix, items);
    var removed := RemoveProduced(p.db, sub, Kept(prefix, items));
    (if prepend && p.created != [] then Prepend(removed, p.created) else removed, p.problems)
  }

  // ---- what a refresh leaves the subscription owning ----

  /** What the loop over the fetched links keeps of the rows: old ones keep their tag, mark, origin and
      place, and only rows of the subscription are new. */
  ghost predicate RowsReconcile(old_: map<nat, Outbound>, start: nat, outs: map<nat, Outbound>, next: nat, created: seq<nat>, sub: nat) {
    && start <= next
    && (forall id :: id in old_ ==> id in outs && outs[id] == old_[id].(settings := outs[id].settings, on := outs[id].on))
    && (forall id :: id in outs && id !in old_ ==> outs[id].sub == sub && !outs[id].builtin && start <= id)
    && (forall k :: 0 <= k < |created| ==> created[k] in outs && start <= created[k] < next)
    && (forall j, k :: 0 <= j < k < |created| ==> created[j] < created[k])
  }

  ghost predicate Reconciling(known: Db, sub: nat, p: Progress) {
    && Tables(p.db) && Grounded(p.db)
    && p.db.rules == known.rules && p.db.bals == known.bals && p.db.nextBal == known.nextBal && p.db.nextRule == known.nextRule
    && RowsReconcile(known.outs, known.nextOut, p.db.outs, p.db.nextOut, p.created, sub)
  }

  lemma KnownFacts(db: Db, sub: nat, t: string)
    ensures var k := Known(db, sub, t);
            && (k.Some? ==> Owns(db, sub, k.value) && db.outs[k.value].tag == t)
            && (k.None? ==> forall id :: Owns(db, sub, id) ==> db.outs[id].tag != t)
  {
  }

  /** Updating a row under the tag it has changes its settings and its switch alone. */
  lemma UpdateInPlace(db: Db, id: nat, input: Input)
    requires Tables(db) && id in db.outs && input.tag == db.outs[id].tag
    ensures var (db', o) := Update(db, id, input);
            && db' == db.(outs := db'.outs) && db'.outs.Keys == db.outs.Keys
            && (forall k :: k in db.outs ==> db'.outs[k] == db.outs[k].(settings := db'.outs[k].settings, on := db'.outs[k].on))
            && (o.Err? ==> db' == db)
  {
    GoodTagIsTrimmed(input.tag);
    if Validated(db, input, id).Some? {
      ValidatedFacts(db, input, id);
    }
  }

  lemma SetOriginKeeps(db: Db, id: nat, sub: nat)
    requires Tables(db) && Grounded(db)
    ensures Tables(SetOrigin(db, id, sub)) && Grounded(SetOrigin(db, id, sub))
  {
    SameTagsKeep(db, SetOrigin(db, id, sub));
  }

  lemma NewRowReconciles(old_: map<nat, Outbound>, start: nat, outs: map<nat, Outbound>, next: nat, created: seq<nat>, sub: nat,
                         row: Outbound)
    requires RowsReconcile(old_, start, outs, next, created, sub)
    requires row.sub == sub && !row.builtin && next !in old_
    ensures RowsReconcile(old_, start, outs[next := row], next + 1, created + [next], sub)
  {
  }

  lemma SettingsReconcile(old_: map<nat, Outbound>, start: nat, outs: map<nat, Outbound>, outs': map<nat, Outbound>, next: nat,
                          created: seq<nat>, sub: nat)
    requires RowsReconcile(old_, start, outs, next, created, sub) && outs'.Keys == outs.Keys
    requires forall k :: k in outs ==> outs'[k] == outs[k].(settings := outs'[k].settings, on := outs'[k].on)
    ensures RowsReconcile(old_, start, outs', next, created, sub)
  {
  }

  lemma UpdateReconciles(known: Db, sub: nat, p: Progress, id: nat, input: Input)
    requires Reconciling(known, sub, p) && id in known.outs && known.outs[id].tag == input.tag
    ensures var (db, o) := Update(p.db, id, input);
            forall ids, n :: Reconciling(known, sub, Progress(db, ids, p.created, n))
  {
    hide Update, Tables, Grounded;
    var db := Update(p.db, id, input).0;
    assert id in p.db.outs && p.db.outs[id].tag == input.tag;
    UpdateKeeps(p.db, id, input);
    UpdateInPlace(p.db, id, input);
    SettingsReconcile(known.outs, known.nextOut, p.db.outs, db.outs, p.db.nextOut, p.created, sub);
  }

  lemma SetOriginOf(before: Db, db: Db, id: nat, row: Outbound, sub: nat)
    requires db.outs == before.outs[id := row]
    ensures SetOrigin(db, id, sub) == db.(outs := before.outs[id := row.(sub := sub)])
  {
  }

  lemma NextIsNew(known: Db, sub: nat, p: Progress)
    requires Reconciling(known, sub, p) && Tables(known)
    ensures p.db.nextOut !in known.outs
    ensures RowsReconcile(known.outs, known.nextOut, p.db.outs, p.db.nextOut + 1, p.created, sub)
  {
  }

  lemma CreateReconciles(known: Db, sub: nat, p: Progress, input: Input)
    requires Reconciling(known, sub, p) && Tables(known)
    ensures var (db, o) := Create(p.db, input);
            if o.Ok? then forall ids, n :: Reconciling(known, sub, Progress(SetOrigin(db, o.value, sub), ids, p.created + [o.value], n))
            else forall n :: Reconciling(known, sub, p.(db := db, problems := n))
  {
    hide Create, SetOrigin, Grounded, Tables, RowsReconcile, GoodTag, Lower, Trim;
    NextIsNew(known, sub, p);
    CreateKeeps(p.db, input);
    CreateShape(p.db, input);
    var (db, o) := Create(p.db, input);
    if o.Ok? {
      SetOriginKeeps(db, o.value, sub);
      var row :| Fresh(p.db, input, row) && db == p.db.(outs := p.db.outs[row.id := row], nextOut := row.id + 1);
      SetOriginOf(p.db, db, o.value, row, sub);
      NewRowReconciles(known.outs, known.nextOut, p.db.outs, p.db.nextOut, p.created, sub, row.(sub := sub));
    }
  }

  lemma ItemReconciles(known: Db, sub: nat, prefix: string, p: Progress, item: Input)
    requires Reconciling(known, sub, p) && Tables(known)
    ensures Reconciling(known, sub, RefreshItem(p, known, sub, prefix, item))
  {
    var input := item.(tag := FetchedTag(prefix, item));
    var id := Known(known, sub, input.tag);
    KnownFacts(known, sub, input.tag);
    if id.Some? {
      UpdateReconciles(known, sub, p, id.value, input);
    } else {
      CreateReconciles(known, sub, p, input);
    }
  }

  lemma {:induction false} ItemsReconcile(known: Db, sub: nat, prefix: string, items: seq<Input>)
    requires Tables(known) && Grounded(known)
    ensures Reconciling(known, sub, RefreshItems(known, sub, prefix, items))
  {
    if items != [] {
      ItemsReconcile(known, sub, prefix, items[..|items| - 1]);
      ItemReconciles(known, sub, prefix, RefreshItems(known, sub, prefix, items[..|items| - 1]), items[|items| - 1]);
    }
  }

  /** The tags a subscription's outbounds have. */
  ghost function TagsOf(outs: map<nat, Outbound>, sub: nat): set<string> {
    set id | id in outs && outs[id].sub == sub :: outs[id].tag
  }

  ghost function OwnedTags(db: Db, sub: nat): set<string> {
    TagsOf(db.outs, sub)
  }

  function Trimmed(ts: set<string>): set<string> {
    set t | t in ts :: Trim(t)
  }

  lemma ItemOwned(known: Db, sub: nat, prefix: string, p: Progress, item: Input)
    requires Reconciling(known, sub, p) && Tables(known) && sub > 0
    requires RefreshItem(p, known, sub, prefix, item).problems == p.problems
    ensures OwnedTags(RefreshItem(p, known, sub, prefix, item).db, sub) == OwnedTags(p.db, sub) + {Trim(FetchedTag(prefix, item))}
  {
    var input := item.(tag := FetchedTag(prefix, item));
    var id := Known(known, sub, input.tag);
    KnownFacts(known, sub, input.tag);
    if id.Some? {
      UpdateOwned(known, sub, p, id.value, input);
    } else {
      CreateOwned(sub, p.db, input);
    }
  }

  lemma UpdateOwned(known: Db, sub: nat, p: Progress, id: nat, input: Input)
    requires Reconciling(known, sub, p) && Tables(known) && Owns(known, sub, id) && known.outs[id].tag == input.tag
    ensures OwnedTags(Update(p.db, id, input).0, sub) == OwnedTags(p.db, sub) + {Trim(input.tag)}
  {
    hide Update, Lower;
    UpdateInPlace(p.db, id, input);
    GoodTagIsTrimmed(input.tag);
    assert p.db.outs[id].tag in OwnedTags(p.db, sub);
    SameOwned(p.db.outs, Update(p.db, id, input).0.outs, sub);
  }

  lemma CreateOwned(sub: nat, db: Db, input: Input)
    requires Tables(db) && Create(db, input).1.Ok?
    ensures var (db', o) := Create(db, input);
            OwnedTags(SetOrigin(db', o.value, sub), sub) == OwnedTags(db, sub) + {Trim(input.tag)}
  {
    hide Create, SetOrigin, Lower, GoodTag, Trim;
    CreateShape(db, input);
    var (db', o) := Create(db, input);
    var row :| Fresh(db, input, row) && db' == db.(outs := db.outs[row.id := row], nextOut := row.id + 1);
    SetOriginOf(db, db', o.value, row, sub);
    var made := row.(sub := sub);
    var after := db.outs[row.id := made];
    assert after - {row.id} == db.outs;
    OneMoreOwned(db.outs, after, sub, row.id);
  }

  lemma SameOwned(a: map<nat, Outbound>, b: map<nat, Outbound>, sub: nat)
    requires a.Keys == b.Keys && forall id :: id in a ==> b[id].tag == a[id].tag && b[id].sub == a[id].sub
    ensures TagsOf(a, sub) == TagsOf(b, sub)
  {
    forall t ensures t in TagsOf(a, sub) <==> t in TagsOf(b, sub) {
      if t in TagsOf(a, sub) {
        var id :| id in a && a[id].sub == sub && a[id].tag == t;
        assert id in b && b[id].sub == sub && b[id].tag == t;
      }
      if t in TagsOf(b, sub) {
        var id :| id in b && b[id].sub == sub && b[id].tag == t;
        assert id in a && a[id].sub == sub && a[id].tag == t;
      }
    }
  }

  lemma OneMoreOwned(a: map<nat, Outbound>, b: map<nat, Outbound>, sub: nat, id: nat)
    requires id !in a && id in b && b[id].sub == sub && b - {id} == a
    ensures TagsOf(b, sub) == TagsOf(a, sub) + {b[id].tag}
  {
    forall t ensures t in TagsOf(b, sub) <==> t in TagsOf(a, sub) + {b[id].tag} {
      if t in TagsOf(b, sub) && t != b[id].tag {
        var k :| k in b && b[k].sub == sub && b[k].tag == t;
        assert k in b - {id};
        assert k in a && a[k] == b[k];
      }
      if t in TagsOf(a, sub) {
        var k :| k in a && a[k].sub == sub && a[k].tag == t;
        assert k in b - {id} && (b - {id})[k] == a[k];
        assert k in b && b[k] == a[k];
      }
    }
  }

  /** While nothing fails, the rows owned grow by exactly the fetched tags, as they are saved. */
  lemma {:induction false} ItemsOwned(known: Db, sub: nat, prefix: string, items: seq<Input>)
    requires Tables(known) && Grounded(known) && sub > 0
    requires RefreshItems(known, sub, prefix, items).problems == 0
    ensures TagsOf(RefreshItems(known, sub, prefix, items).db.outs, sub)
         == TagsOf(known.outs, sub) + Trimmed(Kept(prefix, items))
  {
    if items == [] {
      assert Kept(prefix, items) == {};
      return;
    }
    var init, item := items[..|items| - 1], items[|items| - 1];
    var p := RefreshItems(known, sub, prefix, init);
    NoFewerProblems(known, sub, prefix, p, item);
    ItemsReconcile(known, sub, prefix, init);
    ItemsOwned(known, sub, prefix, init);
    ItemOwned(known, sub, prefix, p, item);
    KeptOneMore(prefix, items);
  }

  lemma NoFewerProblems(known: Db, sub: nat, prefix: string, p: Progress, item: Input)
    ensures RefreshItem(p, known, sub, prefix, item).problems >= p.problems
  {
  }

  lemma KeptOneMore(prefix: string, items: seq<Input>)
    requires items != []
    ensures var init, t := items[..|items| - 1], FetchedTag(prefix, items[|items| - 1]);
            && Kept(prefix, items) == Kept(prefix, init) + {t}
            && Trimmed(Kept(prefix, items)) == Trimmed(Kept(prefix, init)) + {Trim(t)}
  {
    var init, t := items[..|items| - 1], FetchedTag(prefix, items[|items| - 1]);
    forall x ensures x in Kept(prefix, items) <==> x in Kept(prefix, init) + {t} {
      if x in Kept(prefix, init) {
        var i :| 0 <= i < |init| && FetchedTag(prefix, init[i]) == x;
        assert FetchedTag(prefix, items[i]) == x;
      }
      if x in Kept(prefix, items) && x != t {
        var i :| 0 <= i < |items| && FetchedTag(prefix, items[i]) == x;
        assert init[i] == items[i];
      }
    }
    TrimmedUnion(Kept(prefix, init), t);
  }

  lemma TrimmedUnion(ts: set<string>, t: string)
    ensures Trimmed(ts + {t}) == Trimmed(ts) + {Trim(t)}
  {
    forall x ensures x in Trimmed(ts + {t}) <==> x in Trimmed(ts) + {Trim(t)} {
      if x in Trimmed(ts) {
        var u :| u in ts && Trim(u) == x;
        assert u in ts + {t};
      }
      if x == Trim(t) {
        assert t in ts + {t};
      }
    }
  }

  // ---- removal ----

  lemma RemovedTags(db: Db, sub: nat, keep: set<string>)
    requires sub > 0
    ensures TagsOf(RemoveProduced(db, sub, keep).outs, sub) == TagsOf(db.outs, sub) * keep
  {
    var outs := RemoveProduced(db, sub, keep).outs;
    forall t ensures t in TagsOf(outs, sub) <==> t in TagsOf(db.outs, sub) * keep {
      if t in TagsOf(outs, sub) {
        var id :| id in outs && outs[id].sub == sub && outs[id].tag == t;
        assert id in db.outs && db.outs[id].tag == t && db.outs[id].sub == sub;
      }
      if t in TagsOf(db.outs, sub) * keep {
        var id :| id in db.outs && db.outs[id].sub == sub && db.outs[id].tag == t;
        assert id in outs && outs[id] == db.outs[id];
      }
    }
  }

  lemma RemoveProducedKeeps(db: Db, sub: nat, keep: set<string>)
    requires Tables(db) && Grounded(db)
    ensures var db' := RemoveProduced(db, sub, keep); Tables(db') && Grounded(db')
  {
    var db' := RemoveProduced(db, sub, keep);
    forall i | 0 <= i < |db'.rules| ensures Target(db', db'.rules[i].tag) {
      var t := db.rules[i].tag;
      assert Target(db, t);
      if OutTag(db, t) {
        var id :| id in db.outs && db.outs[id].tag == t;
        assert RuleUses(db, t);
        assert id in db'.outs && db'.outs[id].tag == t;
      } else {
        assert BalTag(db', t);
      }
    }
    var id :| id in db.outs && db.outs[id].builtin && db.outs[id].tag == DIRECT;
    assert id in db'.outs && db'.outs[id].builtin && db'.outs[id].tag == DIRECT;
  }

  // ---- prepending ----

  lemma {:induction false} PositionedRows(outs: map<nat, Outbound>, ids: seq<nat>, at: nat)
    ensures var outs' := Positioned(outs, ids, at);
            && outs'.Keys == outs.Keys
            && (forall id :: id in outs ==> outs'[id] == outs[id].(position := outs'[id].position))
            && (forall id :: id in outs && id !in ids ==> outs'[id] == outs[id])
    decreases |ids|
  {
    if ids != [] {
      var outs1 := if ids[0] in outs then outs[ids[0] := outs[ids[0]].(position := at)] else outs;
      PositionedRows(outs1, ids[1..], at + 1);
    }
  }

  lemma {:induction false} PositionedAt(outs: map<nat, Outbound>, ids: seq<nat>, at: nat, i: nat)
    requires i < |ids| && ids[i] in outs && forall j, k :: 0 <= j < k < |ids| ==> ids[j] != ids[k]
    ensures ids[i] in Positioned(outs, ids, at) && Positioned(outs, ids, at)[ids[i]].position == at + i
    decreases |ids|
  {
    var outs1 := if ids[0] in outs then outs[ids[0] := outs[ids[0]].(position := at)] else outs;
    PositionedRows(outs1, ids[1..], at + 1);
    if i == 0 {
      assert ids[0] !in ids[1..];
    } else {
      assert ids[1..][i - 1] == ids[i];
      PositionedAt(outs1, ids[1..], at + 1, i - 1);
    }
  }

  /** Numbering all rows in an order makes that order the listing. */
  lemma NumberedIsListed(outs: map<nat, Outbound>, order: seq<nat>)
    requires Keyed(outs) && (forall id :: id in order <==> id in outs)
    requires forall j, k :: 0 <= j < k < |order| ==> order[j] != order[k]
    ensures Keyed(Positioned(outs, order, 0)) && Listing(Positioned(outs, order, 0)) == order
  {
    var outs' := Positioned(outs, order, 0);
    PositionedRows(outs, order, 0);
    forall i, j | 0 <= i < j < |order| ensures ListedBefore(outs'[order[i]], outs'[order[j]]) {
      PositionedAt(outs, order, 0, i);
      PositionedAt(outs, order, 0, j);
    }
    ListingUnique(outs', outs'.Keys, Listing(outs'), order);
  }

  lemma {:induction false} OthersFacts(l: seq<nat>, ids: seq<nat>)
    ensures forall id :: id in Others(l, ids) <==> id in l && id !in ids
    ensures (forall j, k :: 0 <= j < k < |l| ==> l[j] != l[k]) ==>
              forall j, k :: 0 <= j < k < |Others(l, ids)| ==> Others(l, ids)[j] != Others(l, ids)[k]
  {
    if l != [] {
      OthersFacts(l[1..], ids);
      if forall j, k :: 0 <= j < k < |l| ==> l[j] != l[k] {
        assert l[0] !in l[1..];
      }
    }
  }

  lemma {:induction false} OthersConcat(a: seq<nat>, b: seq<nat>, ids: seq<nat>)
    ensures Others(a + b, ids) == Others(a, ids) + Others(b, ids)
  {
    if a == [] {
      assert a + b == b;
    } else {
      assert (a + b)[1..] == a[1..] + b;
      OthersConcat(a[1..], b, ids);
    }
  }

  lemma {:induction false} OthersAll(l: seq<nat>, ids: seq<nat>)
    ensures (forall id :: id in l ==> id in ids) ==> Others(l, ids) == []
    ensures (forall id :: id in l ==> id !in ids) ==> Others(l, ids) == l
  {
    if l != [] {
      assert l == [l[0]] + l[1..];
      OthersAll(l[1..], ids);
    }
  }

  lemma Interleaved(rest: seq<nat>, ids: seq<nat>, at: nat)
    requires at <= |rest|
    requires forall j, k :: 0 <= j < k < |rest| ==> rest[j] != rest[k]
    requires forall j, k :: 0 <= j < k < |ids| ==> ids[j] != ids[k]
    requires forall j, k :: 0 <= j < |rest| && 0 <= k < |ids| ==> rest[j] != ids[k]
    ensures var order := rest[..at] + ids + rest[at..];
            && (forall j, k :: 0 <= j < k < |order| ==> order[j] != order[k])
            && (forall id :: id in order <==> id in rest || id in ids)
  {
    assert rest == rest[..at] + rest[at..];
  }

  lemma OthersAround(a: seq<nat>, b: seq<nat>, ids: seq<nat>)
    requires (forall id :: id in a ==> id !in ids) && (forall id :: id in b ==> id !in ids)
    ensures Others(a + ids + b, ids) == a + b
  {
    OthersAll(a, ids);
    OthersAll(b, ids);
    OthersAll(ids, ids);
    OthersConcat(a + ids, b, ids);
    OthersConcat(a, ids, ids);
    assert a + [] == a;
  }

  lemma OthersInterleaved(rest: seq<nat>, ids: seq<nat>, at: nat)
    requires at <= |rest| && forall id :: id in rest ==> id !in ids
    ensures Others(rest[..at] + ids + rest[at..], ids) == rest
  {
    OthersAround(rest[..at], rest[at..], ids);
  }

  /** The asked-for order, taken apart: the rest keeps its order around the new ids. */
  lemma OrderFacts(outs: map<nat, Outbound>, all: seq<nat>, ids: seq<nat>)
    requires forall j, k :: 0 <= j < k < |all| ==> all[j] != all[k]
    requires forall j, k :: 0 <= j < k < |ids| ==> ids[j] != ids[k]
    requires forall id :: id in ids ==> id in all
    ensures var order := PrependOrder(outs, all, ids);
            && (forall id :: id in order <==> id in all)
            && (forall j, k :: 0 <= j < k < |order| ==> order[j] != order[k])
            && Others(order, ids) == Others(all, ids)
  {
    var rest := Others(all, ids);
    OthersFacts(all, ids);
    assert forall j :: 0 <= j < |rest| ==> rest[j] in rest;
    Interleaved(rest, ids, PrependAt(outs, rest));
    OthersInterleaved(rest, ids, PrependAt(outs, rest));
  }

  /** Prepending rows that are in the table lists them together, after the built-ins that lead the
      others; the others keep their order, and the first of them stays first. */
  lemma PrependListing(db: Db, ids: seq<nat>)
    requires Keyed(db.outs) && (forall id :: id in ids ==> id in db.outs)
    requires forall j, k :: 0 <= j < k < |ids| ==> ids[j] != ids[k]
    ensures Keyed(Prepend(db, ids).outs)
    ensures var all, after := Listing(db.outs), Listing(Prepend(db, ids).outs);
            var rest := Others(all, ids);
            && multiset(after) == multiset(all)
            && Others(after, ids) == rest
            && (rest != [] ==> after != [] && after[0] == rest[0])
            && (exists at :: 0 <= at <= |rest| && after == rest[..at] + ids + rest[at..] && at == PrependAt(db.outs, rest))
  {
    var all := Listing(db.outs);
    ListingDistinct(db.outs, all);
    var order := PrependOrder(db.outs, all, ids);
    OrderFacts(db.outs, all, ids);
    NumberedIsListed(db.outs, order);
    SameElements(order, all);
    var rest := Others(all, ids);
    var at := PrependAt(db.outs, rest);
    assert order == rest[..at] + ids + rest[at..];
  }

  lemma ListingDistinct(outs: map<nat, Outbound>, l: seq<nat>)
    requires IsListing(outs, l)
    ensures forall j, k :: 0 <= j < k < |l| ==> l[j] != l[k]
  {
    forall j, k | 0 <= j < k < |l| ensures l[j] != l[k] {
      assert ListedBefore(outs[l[j]], outs[l[k]]);
    }
  }

  lemma {:induction false} SameElements(a: seq<nat>, b: seq<nat>)
    requires forall j, k :: 0 <= j < k < |a| ==> a[j] != a[k]
    requires forall j, k :: 0 <= j < k < |b| ==> b[j] != b[k]
    requires forall id :: id in a <==> id in b
    ensures multiset(a) == multiset(b)
  {
    forall id ensures multiset(a)[id] == multiset(b)[id] {
      OnceEach(a, id);
      OnceEach(b, id);
    }
  }

  lemma {:induction false} OnceEach(l: seq<nat>, id: nat)
    requires forall j, k :: 0 <= j < k < |l| ==> l[j] != l[k]
    ensures multiset(l)[id] == if id in l then 1 else 0
  {
    if l != [] {
      assert l == [l[0]] + l[1..];
      assert l[0] !in l[1..];
      OnceEach(l[1..], id);
    }
  }

  // ---- the whole refresh ----

  /** What became of one row that was there before a refresh. */
  ghost predicate Settled(db: Db, db': Db, sub: nat, keep: set<string>, id: nat)
    requires id in db.outs
  {
    var row := db.outs[id];
    if row.sub == sub && row.tag !in keep && Deletable(db, row) then id !in db'.outs
    else
      && id in db'.outs && db'.outs[id].tag == row.tag && db'.outs[id].mark == row.mark && db'.outs[id].builtin == row.builtin
      && db'.outs[id].sub == (if row.sub == sub && row.tag !in keep then 0 else row.sub)
  }

  lemma RemovalSettles(db: Db, db1: Db, sub: nat, keep: set<string>, id: nat)
    requires db1.rules == db.rules && db1.bals == db.bals && id in db.outs && id in db1.outs
    requires db1.outs[id] == db.outs[id].(settings := db1.outs[id].settings, on := db1.outs[id].on)
    ensures Settled(db, RemoveProduced(db1, sub, keep), sub, keep, id)
  {
    SameDeletable(db, db1, id);
  }

  lemma PrependSettles(db: Db, db1: Db, sub: nat, keep: set<string>, id: nat, ids: seq<nat>)
    requires id in db.outs && Settled(db, db1, sub, keep, id)
    ensures Settled(db, Prepend(db1, ids), sub, keep, id)
  {
    if Keyed(db1.outs) {
      PositionedRows(db1.outs, PrependOrder(db1.outs, Listing(db1.outs), ids), 0);
    }
  }

  lemma RowStays(db: Db, sub: nat, prefix: string, items: seq<Input>, id: nat)
    requires Tables(db) && Grounded(db) && id in db.outs
    ensures var p := RefreshItems(db, sub, prefix, items);
            && p.db.rules == db.rules && p.db.bals == db.bals
            && id in p.db.outs && p.db.outs[id] == db.outs[id].(settings := p.db.outs[id].settings, on := p.db.outs[id].on)
  {
    ItemsReconcile(db, sub, prefix, items);
  }

  /** A refresh, with or without problems: an owned row under a fetched tag keeps its id and mark, any
      other owned row is deleted, or detached where a rule or a balancer needs it, and a row the
      subscription does not own stays as it was. */
  lemma RefreshSettles(db: Db, sub: nat, prefix: string, prepend: bool, items: seq<Input>, id: nat)
    requires Tables(db) && Grounded(db) && id in db.outs
    ensures Settled(db, Refresh(db, sub, prefix, prepend, items).0, sub, Kept(prefix, items), id)
  {
    var p := RefreshItems(db, sub, prefix, items);
    var keep := Kept(prefix, items);
    RowStays(db, sub, prefix, items, id);
    RemovalSettles(db, p.db, sub, keep, id);
    PrependSettles(db, RemoveProduced(p.db, sub, keep), sub, keep, id, p.created);
  }

  lemma SameDeletable(db: Db, db1: Db, id: nat)
    requires db1.rules == db.rules && db1.bals == db.bals && id in db.outs && id in db1.outs
    requires db1.outs[id] == db.outs[id].(settings := db1.outs[id].settings, on := db1.outs[id].on)
    ensures Deletable(db1, db1.outs[id]) == Deletable(db, db.outs[id])
  {
    assert RuleUses(db1, db.outs[id].tag) == RuleUses(db, db.outs[id].tag);
    assert MemberOf(db1, db.outs[id].tag) == MemberOf(db, db.outs[id].tag);
  }

  lemma PrependKeeps(db: Db, ids: seq<nat>)
    requires Tables(db) && Grounded(db)
    ensures Tables(Prepend(db, ids)) && Grounded(Prepend(db, ids))
    ensures forall sub :: TagsOf(Prepend(db, ids).outs, sub) == TagsOf(db.outs, sub)
  {
    var db' := Prepend(db, ids);
    PositionedRows(db.outs, PrependOrder(db.outs, Listing(db.outs), ids), 0);
    SameTagsKeep(db, db');
    forall sub ensures TagsOf(db'.outs, sub) == TagsOf(db.outs, sub) {
      SameOwned(db.outs, db'.outs, sub);
    }
  }

  lemma RefreshKeeps(db: Db, sub: nat, prefix: string, prepend: bool, items: seq<Input>)
    requires Tables(db) && Grounded(db)
    ensures var db' := Refresh(db, sub, prefix, prepend, items).0; Tables(db') && Grounded(db')
  {
    var p := RefreshItems(db, sub, prefix, items);
    ItemsReconcile(db, sub, prefix, items);
    RemoveProducedKeeps(p.db, sub, Kept(prefix, items));
    PrependKeeps(RemoveProduced(p.db, sub, Kept(prefix, items)), p.created);
  }

  /** A tag no saved row can have: saving trims it. */
  lemma {:induction false} TrimIdempotent(t: string)
    ensures Trim(Trim(t)) == Trim(t)
  {
    var l := TrimLeft(t);
    TrimLeftDone(t);
    TrimRightPrefix(l);
    TrimRightDone(l);
  }

  lemma {:induction false} TrimLeftDone(s: string)
    ensures TrimLeft(s) == [] || !White(TrimLeft(s)[0])
  {
    if s != [] && White(s[0]) {
      TrimLeftDone(s[1..]);
    }
  }

  lemma {:induction false} TrimRightDone(s: string)
    ensures TrimRight(s) == [] || !White(TrimRight(s)[|TrimRight(s)| - 1])
  {
    if s != [] && White(s[|s| - 1]) {
      TrimRightDone(s[..|s| - 1]);
    }
  }

  lemma {:induction false} TrimRightPrefix(s: string)
    ensures TrimRight(s) <= s
  {
    if s != [] && White(s[|s| - 1]) {
      TrimRightPrefix(s[..|s| - 1]);
    }
  }

  /** A refresh that reports no problem leaves the subscription owning exactly the fetched tags, one row
      each, exactly when none of them, prefixed and cut, has white space at its ends: a row made under
      such a tag is saved trimmed, not found among the kept ones, and removed again at once. */
  lemma RefreshOwnsExactlyFetched(db: Db, sub: nat, prefix: string, prepend: bool, items: seq<Input>)
    requires Tables(db) && Grounded(db) && sub > 0
    requires Refresh(db, sub, prefix, prepend, items).1 == 0
    ensures var db' := Refresh(db, sub, prefix, prepend, items).0;
            var fetched := Kept(prefix, items);
            && (OwnedTags(db', sub) == fetched <==> forall t :: t in fetched ==> Trim(t) == t)
            && (forall i, j :: Owns(db', sub, i) && Owns(db', sub, j) && db'.outs[i].tag == db'.outs[j].tag ==> i == j)
  {
    var fetched := Kept(prefix, items);
    RefreshMeets(db, sub, prefix, prepend, items);
    OwnedAreTrimmed(db, sub);
    TrimmedMeet(TagsOf(db.outs, sub), fetched);
    RefreshKeeps(db, sub, prefix, prepend, items);
    OneRowPerTag(Refresh(db, sub, prefix, prepend, items).0, sub);
  }

  /** What is owned after: what was owned or fetched, as saved, among what was fetched. */
  lemma RefreshMeets(db: Db, sub: nat, prefix: string, prepend: bool, items: seq<Input>)
    requires Tables(db) && Grounded(db) && sub > 0
    requires Refresh(db, sub, prefix, prepend, items).1 == 0
    ensures var fetched := Kept(prefix, items);
            OwnedTags(Refresh(db, sub, prefix, prepend, items).0, sub) == (TagsOf(db.outs, sub) + Trimmed(fetched)) * fetched
  {
    var p := RefreshItems(db, sub, prefix, items);
    var fetched := Kept(prefix, items);
    ItemsReconcile(db, sub, prefix, items);
    ItemsOwned(db, sub, prefix, items);
    RemovedTags(p.db, sub, fetched);
    RemoveProducedKeeps(p.db, sub, fetched);
    PrependKeeps(RemoveProduced(p.db, sub, fetched), p.created);
    var db' := Refresh(db, sub, prefix, prepend, items).0;
    assert OwnedTags(db', sub) == TagsOf(db'.outs, sub);
  }

  lemma OneRowPerTag(db: Db, sub: nat)
    requires Tables(db)
    ensures forall i, j :: Owns(db, sub, i) && Owns(db, sub, j) && db.outs[i].tag == db.outs[j].tag ==> i == j
  {
  }

  lemma OwnedAreTrimmed(db: Db, sub: nat)
    requires Tables(db)
    ensures forall t :: t in TagsOf(db.outs, sub) ==> Trim(t) == t
  {
    forall t | t in TagsOf(db.outs, sub) ensures Trim(t) == t {
      var id :| id in db.outs && db.outs[id].sub == sub && db.outs[id].tag == t;
      GoodTagIsTrimmed(t);
    }
  }

  lemma TrimmedMeet(owned: set<string>, fetched: set<string>)
    requires forall t :: t in owned ==> Trim(t) == t
    ensures (owned + Trimmed(fetched)) * fetched == fetched <==> forall t :: t in fetched ==> Trim(t) == t
  {
    var meet := (owned + Trimmed(fetched)) * fetched;
    if forall t :: t in fetched ==> Trim(t) == t {
      forall t | t in fetched ensures t in meet {
        assert Trim(t) == t && t in Trimmed(fetched);
      }
      assert meet == fetched;
    } else {
      var t :| t in fetched && Trim(t) != t;
      if t in Trimmed(fetched) {
        var u :| u in fetched && Trim(u) == t;
        TrimIdempotent(u);
      }
      assert t !in meet;
    }
  }
}
