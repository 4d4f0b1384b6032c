/**
  Numbered migrations: each runs once, in order, in one transaction with its
  record, over any number of starts that may fail between any two transactions.
 */
module Migrations {
  import opened Prelude

  /** One step: what it makes of a database at a given time, or that it fails. */
  datatype Migration<!D> = Migration(id: nat, name: string, before: bool, run: (string, D) -> Option<D>)

  datatype Record = Record(name: string, at: string)

  /** A database: its rows, and the record of the migrations it has been through. */
  datatype Db<D> = Db(data: D, done: map<nat, Record>)

  /** What was committed: a migration with its record, or the tables brought up to date for a version
      with so many migrations. */
  datatype Event = Body(id: nat, at: string) | Tables(size: nat)

  /** How far a start came: `left` is how many more transactions would have committed before it died. */
  datatype Outcome<D> = Outcome(db: Db<D>, ok: bool, left: nat, events: seq<Event>)

  predicate DistinctIds<D>(ms: seq<Migration<D>>) {
    forall i, j :: 0 <= i < j < |ms| ==> ms[i].id != ms[j].id
  }

  /** One transaction: the body and its record, or neither. A second record of the same number is refused. */
  function Commit<D>(s: Db<D>, m: Migration<D>, at: string, left: nat): (r: Option<Db<D>>)
    ensures r.Some? ==> left > 0
  {
    if left == 0 then None
    else match m.run(at, s.data)
      case None => None
      case Some(d) => if m.id in s.done then None else Some(Db(d, s.done[m.id := Record(m.name, at)]))
  }

  function Prepend<D>(events: seq<Event>, o: Outcome<D>): Outcome<D> {
    o.(events := events + o.events)
  }

  /** The steps of one phase, in the list's order, skipping those applied and stopping at the first that fails. */
  function Phase<D>(s: Db<D>, applied: set<nat>, ms: seq<Migration<D>>, before: bool, at: string, left: nat): Outcome<D>
    decreases |ms|
  {
    if ms == [] then Outcome(s, true, left, [])
    else if ms[0].before != before || ms[0].id in applied then Phase(s, applied, ms[1..], before, at, left)
    else
      match Commit(s, ms[0], at, left)
      case None => Outcome(s, false, left, [])
      case Some(s') => Prepend([Body(ms[0].id, at)], Phase(s', applied + {ms[0].id}, ms[1..], before, at, left - 1))
  }

  /** Bringing the tables up to date with a version's models. */
  function UpToDate<D>(s: Db<D>, bring: (nat, D) -> Option<D>, size: nat, left: nat): (r: Option<Db<D>>)
    ensures r.Some? ==> left > 0 && r.value.done == s.done
  {
    if left == 0 then None
    else match bring(size, s.data) case None => None case Some(d) => Some(s.(data := d))
  }

  /** One start of the version that has these migrations. */
  function StartOnce<D>(s: Db<D>, ms: seq<Migration<D>>, bring: (nat, D) -> Option<D>, at: string, left: nat): Outcome<D> {
    var a := Phase(s, s.done.Keys, ms, true, at, left);
    if !a.ok then a
    else
      match UpToDate(a.db, bring, |ms|, a.left)
      case None => a.(ok := false)
      case Some(s') => Prepend(a.events + [Tables(|ms|)], Phase(s', s'.done.Keys, ms, false, at, a.left - 1))
  }

  // ---- what one start does ----

  /** The steps of a phase that are still to do, in the list's order. */
  function Pending<D>(ms: seq<Migration<D>>, done: set<nat>, before: bool, at: string): seq<Event> {
    if ms == [] then []
    else (if ms[0].before == before && ms[0].id !in done then [Body(ms[0].id, at)] else []) + Pending(ms[1..], done, before, at)
  }

  /** Everything one start is to commit: the early steps, the tables, the rest. */
  function Plan<D>(ms: seq<Migration<D>>, done: set<nat>, at: string): seq<Event> {
    Pending(ms, done, true, at) + [Tables(|ms|)] + Pending(ms, done, false, at)
  }

  function BodyIds(events: seq<Event>): set<nat> {
    if events == [] then {}
    else (if events[0].Body? then {events[0].id} else {}) + BodyIds(events[1..])
  }

  lemma {:induction false} BodyIdsConcat(a: seq<Event>, b: seq<Event>)
    ensures BodyIds(a + b) == BodyIds(a) + BodyIds(b)
  {
    if a == [] {
      assert a + b == b;
    } else {
      assert (a + b)[1..] == a[1..] + b;
      BodyIdsConcat(a[1..], b);
    }
  }

  lemma {:induction false} PendingIgnores<D>(ms: seq<Migration<D>>, done: set<nat>, ids: set<nat>, before: bool, at: string)
    requires forall i :: 0 <= i < |ms| && ms[i].before == before ==> ms[i].id !in ids
    ensures Pending(ms, done + ids, before, at) == Pending(ms, done, before, at)
  {
    if ms != [] {
      assert ms[0].before == before ==> ms[0].id !in ids;
      PendingIgnores(ms[1..], done, ids, before, at);
    }
  }

  lemma {:induction false} PendingIds<D>(ms: seq<Migration<D>>, done: set<nat>, before: bool, at: string)
    ensures BodyIds(Pending(ms, done, before, at)) == set m | m in ms && m.before == before && m.id !in done :: m.id
  {
    if ms != [] {
      PendingIds(ms[1..], done, before, at);
      var rest := Pending(ms[1..], done, before, at);
      var first := if ms[0].before == before && ms[0].id !in done then [Body(ms[0].id, at)] else [];
      BodyIdsConcat(first, rest);
      assert ms == [ms[0]] + ms[1..];
    }
  }

  lemma CommitRecords<D>(s: Db<D>, m: Migration<D>, at: string, left: nat)
    ensures var r := Commit(s, m, at, left); r.Some? ==> r.value.done.Keys == s.done.Keys + {m.id} && m.id !in s.done
  {
  }

  lemma FewBodies(id: nat, at: string)
    ensures BodyIds([]) == {} && BodyIds([Body(id, at)]) == {id}
  {
    assert [Body(id, at)][1..] == [];
  }

  /** A phase commits the beginning of its plan, and is through exactly when it has committed all of it. */
  lemma {:induction false} PhaseFollowsPlan<D>(s: Db<D>, ms: seq<Migration<D>>, before: bool, at: string, left: nat)
    requires DistinctIds(ms)
    ensures var o := Phase(s, s.done.Keys, ms, before, at, left);
            && o.events <= Pending(ms, s.done.Keys, before, at)
            && (o.ok <==> o.events == Pending(ms, s.done.Keys, before, at))
            && o.db.done.Keys == s.done.Keys + BodyIds(o.events)
    decreases |ms|
  {
    hide Commit, BodyIds;
    FewBodies(if ms == [] then 0 else ms[0].id, at);
    if ms != [] {
      assert DistinctIds(ms[1..]);
      if ms[0].before != before || ms[0].id in s.done.Keys {
        PhaseFollowsPlan(s, ms[1..], before, at, left);
      } else {
        match Commit(s, ms[0], at, left)
        case None =>
        case Some(s') =>
          PhaseFollowsPlan(s', ms[1..], before, at, left - 1);
          CommitRecords(s, ms[0], at, left);
          PendingIgnores(ms[1..], s.done.Keys, {ms[0].id}, before, at);
          BodyIdsConcat([Body(ms[0].id, at)], Phase(s', s'.done.Keys, ms[1..], before, at, left - 1).events);
      }
    }
  }

  /** One start commits the beginning of its plan: the early steps before the tables and the rest after,
      each part in the list's order. It is through exactly when it has committed the whole of it. */
  lemma StartFollowsPlan<D>(s: Db<D>, ms: seq<Migration<D>>, bring: (nat, D) -> Option<D>, at: string, left: nat)
    requires DistinctIds(ms)
    ensures var o := StartOnce(s, ms, bring, at, left);
            && o.events <= Plan(ms, s.done.Keys, at)
            && (o.ok <==> o.events == Plan(ms, s.done.Keys, at))
            && o.db.done.Keys == s.done.Keys + BodyIds(o.events)
  {
    hide Phase, Pending;
    var early := Pending(ms, s.done.Keys, true, at);
    var a := Phase(s, s.done.Keys, ms, true, at, left);
    PhaseFollowsPlan(s, ms, true, at, left);
    if a.ok {
      match UpToDate(a.db, bring, |ms|, a.left)
      case None =>
      case Some(s') =>
        PhaseFollowsPlan(s', ms, false, at, a.left - 1);
        PendingIds(ms, s.done.Keys, true, at);
        EarlyAreNotLate(ms, s.done.Keys, at);
        PendingIgnores(ms, s.done.Keys, BodyIds(early), false, at);
        var b := Phase(s', s'.done.Keys, ms, false, at, a.left - 1);
        BodyIdsConcat(a.events + [Tables(|ms|)], b.events);
        BodyIdsConcat(a.events, [Tables(|ms|)]);
    }
  }

  lemma EarlyAreNotLate<D>(ms: seq<Migration<D>>, done: set<nat>, at: string)
    requires DistinctIds(ms)
    ensures forall i :: 0 <= i < |ms| && !ms[i].before ==> ms[i].id !in BodyIds(Pending(ms, done, true, at))
  {
    PendingIds(ms, done, true, at);
  }

  // ---- over any number of starts ----

  /** One try at starting: a version with so many of the migrations, when, and how long it lives. */
  datatype Launch = Launch(size: nat, at: string, left: nat)

  predicate Versions<D>(all: seq<Migration<D>>, starts: seq<Launch>) {
    DistinctIds(all) && forall i :: 0 <= i < |starts| ==> starts[i].size <= |all|
  }

  /** What a run of starts leaves, whichever of them failed and wherever. */
  function Starts<D>(s: Db<D>, all: seq<Migration<D>>, bring: (nat, D) -> Option<D>, starts: seq<Launch>): (Db<D>, seq<Event>)
    requires Versions(all, starts)
  {
    if starts == [] then (s, [])
    else
      var n := |starts| - 1;
      var (before, events) := Starts(s, all, bring, starts[..n]);
      var o := StartOnce(before, all[..starts[n].size], bring, starts[n].at, starts[n].left);
      (o.db, events + o.events)
  }

  /** The effect of what was committed, and of nothing else. */
  function Effect<D>(all: seq<Migration<D>>, bring: (nat, D) -> Option<D>, events: seq<Event>, d: D): Option<D> {
    if events == [] then Some(d)
    else
      var next := match events[0]
                  case Tables(size) => bring(size, d)
                  case Body(id, at) => (match Named(all, id) case None => None case Some(m) => m.run(at, d));
      if next.None? then None else Effect(all, bring, events[1..], next.value)
  }

  function Named<D>(ms: seq<Migration<D>>, id: nat): Option<Migration<D>> {
    if ms == [] then None else if ms[0].id == id then Some(ms[0]) else Named(ms[1..], id)
  }

  lemma {:induction false} NamedIs<D>(ms: seq<Migration<D>>, i: nat)
    requires DistinctIds(ms) && i < |ms|
    ensures Named(ms, ms[i].id) == Some(ms[i])
  {
    if i > 0 {
      assert DistinctIds(ms[1..]);
      NamedIs(ms[1..], i - 1);
    }
  }

  lemma {:induction false} EffectConcat<D>(all: seq<Migration<D>>, bring: (nat, D) -> Option<D>, a: seq<Event>, b: seq<Event>, d: D, e: D)
    requires Effect(all, bring, a, d) == Some(e)
    ensures Effect(all, bring, a + b, d) == Effect(all, bring, b, e)
  {
    if a == [] {
      assert a + b == b;
    } else {
      assert (a + b)[1..] == a[1..] + b;
      var next := match a[0]
                  case Tables(size) => bring(size, d)
                  case Body(id, at) => (match Named(all, id) case None => None case Some(m) => m.run(at, d));
      EffectConcat(all, bring, a[1..], b, next.value, e);
    }
  }

  ghost predicate Among<D>(ms: seq<Migration<D>>, all: seq<Migration<D>>) {
    forall i :: 0 <= i < |ms| ==> Named(all, ms[i].id) == Some(ms[i])
  }

  lemma {:induction false} PhaseEffect<D>(s: Db<D>, applied: set<nat>, all: seq<Migration<D>>, ms: seq<Migration<D>>,
                                          bring: (nat, D) -> Option<D>, before: bool, at: string, left: nat)
    requires Among(ms, all)
    ensures var o := Phase(s, applied, ms, before, at, left); Effect(all, bring, o.events, s.data) == Some(o.db.data)
    decreases |ms|
  {
    if ms != [] {
      assert Named(all, ms[0].id) == Some(ms[0]);
      assert Among(ms[1..], all);
      if ms[0].before != before || ms[0].id in applied {
        PhaseEffect(s, applied, all, ms[1..], bring, before, at, left);
      } else {
        match Commit(s, ms[0], at, left)
        case None =>
        case Some(s') =>
          PhaseEffect(s', applied + {ms[0].id}, all, ms[1..], bring, before, at, left - 1);
          BodyEffect(all, ms[0], bring, at, s.data, s'.data);
          EffectConcat(all, bring, [Body(ms[0].id, at)], Phase(s', applied + {ms[0].id}, ms[1..], before, at, left - 1).events, s.data, s'.data);
      }
    }
  }

  lemma BodyEffect<D>(all: seq<Migration<D>>, m: Migration<D>, bring: (nat, D) -> Option<D>, at: string, d: D, e: D)
    requires Named(all, m.id) == Some(m) && m.run(at, d) == Some(e)
    ensures Effect(all, bring, [Body(m.id, at)], d) == Some(e)
  {
    assert Effect(all, bring, [Body(m.id, at)][1..], e) == Some(e);
  }

  lemma TablesEffect<D>(all: seq<Migration<D>>, bring: (nat, D) -> Option<D>, size: nat, d: D, e: D)
    requires bring(size, d) == Some(e)
    ensures Effect(all, bring, [Tables(size)], d) == Some(e)
  {
    assert Effect(all, bring, [Tables(size)][1..], e) == Some(e);
  }

  lemma StartEffect<D>(s: Db<D>, all: seq<Migration<D>>, ms: seq<Migration<D>>, bring: (nat, D) -> Option<D>, at: string, left: nat)
    requires Among(ms, all)
    ensures var o := StartOnce(s, ms, bring, at, left); Effect(all, bring, o.events, s.data) == Some(o.db.data)
  {
    PhaseEffect(s, s.done.Keys, all, ms, bring, true, at, left);
    var a := Phase(s, s.done.Keys, ms, true, at, left);
    if a.ok {
      match UpToDate(a.db, bring, |ms|, a.left)
      case None =>
      case Some(s') =>
        var b := Phase(s', s'.done.Keys, ms, false, at, a.left - 1);
        PhaseEffect(s', s'.done.Keys, all, ms, bring, false, at, a.left - 1);
        TablesEffect(all, bring, |ms|, a.db.data, s'.data);
        EffectConcat(all, bring, a.events, [Tables(|ms|)], s.data, a.db.data);
        EffectConcat(all, bring, a.events + [Tables(|ms|)], b.events, s.data, s'.data);
    }
  }

  /** No migration is committed twice. */
  predicate Once(events: seq<Event>) {
    events != [] ==> Once(events[1..]) && (events[0].Body? ==> events[0].id !in BodyIds(events[1..]))
  }

  lemma {:induction false} OnceConcat(a: seq<Event>, b: seq<Event>)
    requires Once(a) && Once(b) && BodyIds(a) !! BodyIds(b)
    ensures Once(a + b)
  {
    if a == [] {
      assert a + b == b;
    } else {
      assert (a + b)[1..] == a[1..] + b;
      OnceConcat(a[1..], b);
      BodyIdsConcat(a[1..], b);
    }
  }

  lemma {:induction false} PendingOnce<D>(ms: seq<Migration<D>>, done: set<nat>, before: bool, at: string)
    requires DistinctIds(ms)
    ensures Once(Pending(ms, done, before, at)) && BodyIds(Pending(ms, done, before, at)) !! done
  {
    PendingIds(ms, done, before, at);
    if ms != [] {
      assert DistinctIds(ms[1..]);
      PendingOnce(ms[1..], done, before, at);
      PendingIds(ms[1..], done, before, at);
      var rest := Pending(ms[1..], done, before, at);
      assert forall m :: m in ms[1..] ==> m.id != ms[0].id;
      if ms[0].before == before && ms[0].id !in done {
        assert ([Body(ms[0].id, at)] + rest)[1..] == rest;
      } else {
        assert [] + rest == rest;
      }
    }
  }

  lemma PlanOnce<D>(ms: seq<Migration<D>>, done: set<nat>, at: string)
    requires DistinctIds(ms)
    ensures Once(Plan(ms, done, at)) && BodyIds(Plan(ms, done, at)) !! done
    ensures done + BodyIds(Plan(ms, done, at)) == done + set m | m in ms :: m.id
  {
    var early, late, tables := Pending(ms, done, true, at), Pending(ms, done, false, at), [Tables(|ms|)];
    PendingOnce(ms, done, true, at);
    PendingOnce(ms, done, false, at);
    PendingIds(ms, done, true, at);
    PendingIds(ms, done, false, at);
    EarlyAreNotLate(ms, done, at);
    assert BodyIds(tables) == {} && Once(tables);
    OnceConcat(early, tables);
    BodyIdsConcat(early, tables);
    OnceConcat(early + tables, late);
    BodyIdsConcat(early + tables, late);
  }

  lemma {:induction false} OncePrefix(a: seq<Event>, b: seq<Event>)
    requires a <= b && Once(b)
    ensures Once(a) && BodyIds(a) <= BodyIds(b)
  {
    if a != [] {
      assert a[1..] <= b[1..] && a[0] == b[0];
      OncePrefix(a[1..], b[1..]);
    }
  }

  /** Over any number of starts, of any versions and failing anywhere: each migration's body is committed at
      most once, and is committed exactly when its record is; what was recorded before is not run again; and
      the rows are what the committed steps made of them, in the order they were committed. */
  lemma {:induction false} ExactlyOnce<D>(s: Db<D>, all: seq<Migration<D>>, bring: (nat, D) -> Option<D>, starts: seq<Launch>)
    requires Versions(all, starts)
    ensures var (db, events) := Starts(s, all, bring, starts);
            && Once(events)
            && BodyIds(events) !! s.done.Keys && db.done.Keys == s.done.Keys + BodyIds(events)
            && Effect(all, bring, events, s.data) == Some(db.data)
  {
    if starts != [] {
      var n := |starts| - 1;
      ExactlyOnce(s, all, bring, starts[..n]);
      var (db, events) := Starts(s, all, bring, starts[..n]);
      var ms, at, left := all[..starts[n].size], starts[n].at, starts[n].left;
      var o := StartOnce(db, ms, bring, at, left);
      StartFollowsPlan(db, ms, bring, at, left);
      PlanOnce(ms, db.done.Keys, at);
      OncePrefix(o.events, Plan(ms, db.done.Keys, at));
      OnceConcat(events, o.events);
      BodyIdsConcat(events, o.events);
      PrefixAmong(all, starts[n].size);
      StartEffect(db, all, ms, bring, at, left);
      EffectConcat(all, bring, events, o.events, s.data, db.data);
    }
  }

  lemma PrefixAmong<D>(all: seq<Migration<D>>, size: nat)
    requires DistinctIds(all) && size <= |all|
    ensures Among(all[..size], all) && DistinctIds(all[..size])
  {
    forall i | 0 <= i < size ensures Named(all, all[..size][i].id) == Some(all[..size][i]) {
      NamedIs(all, i);
    }
  }

  /** A start that comes through has every migration of its version recorded, and one after it commits
      nothing but the tables. */
  lemma ThroughIsSettled<D>(s: Db<D>, ms: seq<Migration<D>>, bring: (nat, D) -> Option<D>, at: string, left: nat, at': string, left': nat)
    requires DistinctIds(ms)
    ensures var o := StartOnce(s, ms, bring, at, left);
            o.ok ==>
              && (forall m :: m in ms ==> m.id in o.db.done)
              && var again := StartOnce(o.db, ms, bring, at', left');
                 again.events <= [Tables(|ms|)] && again.db.done == o.db.done
  {
    StartFollowsPlan(s, ms, bring, at, left);
    var o := StartOnce(s, ms, bring, at, left);
    if o.ok {
      PlanOnce(ms, s.done.Keys, at);
      assert o.db.done.Keys == s.done.Keys + set m | m in ms :: m.id;
      NothingPending(o.db, ms, true, at', left');
      match UpToDate(o.db, bring, |ms|, left')
      case None =>
      case Some(d) =>
        NothingPending(d, ms, false, at', left' - 1);
    }
  }

  lemma {:induction false} NothingPending<D>(s: Db<D>, ms: seq<Migration<D>>, before: bool, at: string, left: nat)
    requires forall m :: m in ms ==> m.id in s.done
    ensures Phase(s, s.done.Keys, ms, before, at, left) == Outcome(s, true, left, [])
    decreases |ms|
  {
    if ms != [] {
      assert ms[0] in ms && forall m :: m in ms[1..] ==> m in ms;
      NothingPending(s, ms[1..], before, at, left);
    }
  }

  /** Every data migration run over, for the rows a restore brought: each commits by itself, and none is recorded. */
  function Replayed<D>(d: D, ms: seq<Migration<D>>, at: string, left: nat): (D, bool)
    decreases |ms|
  {
    if ms == [] then (d, true)
    else if ms[0].before then Replayed(d, ms[1..], at, left)
    else if left == 0 then (d, false)
    else match ms[0].run(at, d) case None => (d, false) case Some(e) => Replayed(e, ms[1..], at, left - 1)
  }

  class Store<D(!new)> {
    var data: D
    var done: map<nat, Record>

    constructor (data: D, done: map<nat, Record>)
      ensures Now() == Db(data, done)
    {
      this.data, this.done := data, done;
    }

    function Now(): Db<D>
      reads this
    {
      Db(data, done)
    }

    /** One transaction of a start that has `left` more to commit. */
    method Transaction(m: Migration<D>, at: string, left: nat) returns (ok: bool)
      modifies this
      ensures match Commit(old(Now()), m, at, left) case None => !ok && Now() == old(Now()) case Some(s) => ok && Now() == s
    {
      if left == 0 {
        return false;
      }
      match m.run(at, data)
      case None => return false;
      case Some(d) =>
        if m.id in done {
          return false;
        }
        data, done := d, done[m.id := Record(m.name, at)];
        return true;
    }

    method RunMigrations(ms: seq<Migration<D>>, before: bool, applied: set<nat>, at: string, left: nat)
      returns (ok: bool, marked: set<nat>, rest: nat, ghost events: seq<Event>)
      modifies this
      ensures Outcome(Now(), ok, rest, events) == Phase(old(Now()), applied, ms, before, at, left)
      ensures marked == applied + BodyIds(events)
    {
      marked, rest, events := applied, left, [];
      ghost var whole := Phase(Now(), applied, ms, before, at, left);
      for i := 0 to |ms|
        invariant whole == Prepend(events, Phase(Now(), marked, ms[i..], before, at, rest))
        invariant marked == applied + BodyIds(events)
      {
        var m := ms[i];
        assert ms[i..][0] == m && ms[i..][1..] == ms[i + 1..];
        if m.before == before && m.id !in marked {
          var through := Transaction(m, at, rest);
          if !through {
            return false, marked, rest, events;
          }
          marked, rest := marked + {m.id}, rest - 1;
          BodyIdsConcat(events, [Body(m.id, at)]);
          EventsGroup(events, [Body(m.id, at)], Phase(Now(), marked, ms[i + 1..], before, at, rest));
          events := events + [Body(m.id, at)];
        }
      }
      ok := true;
    }

    /** One start: the numbers done are read, the early steps run, the tables brought up to date, then the rest. */
    method Migrate(ms: seq<Migration<D>>, bring: (nat, D) -> Option<D>, at: string, left: nat) returns (ok: bool, ghost events: seq<Event>)
      requires DistinctIds(ms)
      modifies this
      ensures var o := StartOnce(old(Now()), ms, bring, at, left); ok == o.ok && Now() == o.db && events == o.events
    {
      ghost var s := Now();
      PhaseFollowsPlan(s, ms, true, at, left);
      var early, applied, rest, first := RunMigrations(ms, true, done.Keys, at, left);
      events := first;
      if !early || rest == 0 {
        return false, events;
      }
      match bring(|ms|, data)
      case None => return false, events;
      case Some(d) =>
        data := d;
        var late, _, _, second := RunMigrations(ms, false, applied, at, rest - 1);
        events := events + [Tables(|ms|)] + second;
        return late, events;
    }

    method Replay(ms: seq<Migration<D>>, at: string, left: nat) returns (ok: bool)
      modifies this`data
      ensures (data, ok) == Replayed(old(data), ms, at, left)
    {
      var rest := left;
      ghost var whole := Replayed(data, ms, at, left);
      for i := 0 to |ms|
        invariant whole == Replayed(data, ms[i..], at, rest)
      {
        var m := ms[i];
        assert ms[i..][0] == m && ms[i..][1..] == ms[i + 1..];
        if !m.before {
          if rest == 0 {
            return false;
          }
          match m.run(at, data)
          case None => return false;
          case Some(e) => data, rest := e, rest - 1;
        }
      }
      ok := true;
    }
  }

  lemma EventsGroup<D>(a: seq<Event>, b: seq<Event>, o: Outcome<D>)
    ensures Prepend(a, Prepend(b, o)) == Prepend(a + b, o)
  {
    assert a + (b + o.events) == a + b + o.events;
  }
}
