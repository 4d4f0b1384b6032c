/**
  The set of open tunnel drivers, by interface. Each function below `Pool` is
  one region under the pool's lock, with the driver call that goes with it; a
  driver is a number, given out once, and `live` is those opened and not closed.
 */
module DriverPool {
  import opened Prelude

  datatype Iface = Iface(id: nat, enabled: bool, created: int, fp: string)

  /** A driver, or why the last attempt to open one failed. */
  datatype Entry = Entry(drv: Option<nat>, fp: string, error: Option<string>)

  datatype Pool = Pool(open: map<nat, Entry>, destroyed: map<nat, int>, next: nat, live: set<nat>)

  const MINUTE := 60_000_000_000 // nanoseconds

  /** How things turn out during a pass: which open drivers report themselves healthy, and what opening an
      interface's driver fails with, if it does. */
  datatype World = World(healthy: nat -> bool, fails: nat -> Option<string>)

  /** Deleted since the row was read: marked no earlier than the row was created. */
  predicate Gone(p: Pool, i: Iface) {
    i.id in p.destroyed && i.created <= p.destroyed[i.id]
  }

  predicate Wanted(p: Pool, i: Iface) {
    i.enabled && !Gone(p, i)
  }

  /** Open, unchanged and working: its customers are left alone. */
  predicate LeftAlone(p: Pool, i: Iface, w: World) {
    i.id in p.open && p.open[i.id].drv.Some? && p.open[i.id].fp == i.fp && w.healthy(p.open[i.id].drv.value)
  }

  function DriverOf(p: Pool, id: nat): set<nat> {
    if id in p.open && p.open[id].drv.Some? then {p.open[id].drv.value} else {}
  }

  /** `record`: the failure takes the entry's place. */
  function Fail(p: Pool, id: nat, error: string): Pool {
    p.(open := p.open[id := Entry(None, "", Some(error))])
  }

  /** The new driver takes the entry's place, and then the old one is closed. */
  function Install(p: Pool, i: Iface): Pool {
    Pool(p.open[i.id := Entry(Some(p.next), i.fp, None)], p.destroyed, p.next + 1, p.live + {p.next} - DriverOf(p, i.id))
  }

  function OpenOne(p: Pool, i: Iface, error: Option<string>): Pool {
    if error.None? then Install(p, i) else Fail(p, i.id, error.value)
  }

  function Forget(p: Pool, id: nat): Pool {
    p.(open := p.open - {id}, live := p.live - DriverOf(p, id))
  }

  /** `takeDown`: a deletion is marked, a switched-off interface is not. */
  function TakeDown(p: Pool, id: nat, forGood: bool, now: int): Pool {
    var q := Forget(p, id);
    if forGood then q.(destroyed := q.destroyed[id := now]) else q
  }

  /** Marks older than a minute are dropped. */
  function Prune(p: Pool, now: int): Pool {
    p.(destroyed := map id | id in p.destroyed && now - p.destroyed[id] <= MINUTE :: p.destroyed[id])
  }

  /** What a pass does about one row. */
  function VisitOne(p: Pool, i: Iface, w: World): Pool {
    if !Wanted(p, i) || LeftAlone(p, i, w) then p else OpenOne(p, i, w.fails(i.id))
  }

  function Visit(p: Pool, rows: seq<Iface>, w: World): Pool {
    if rows == [] then p else VisitOne(Visit(p, rows[..|rows| - 1], w), rows[|rows| - 1], w)
  }

  function WantedIds(p: Pool, rows: seq<Iface>): set<nat> {
    set k | 0 <= k < |rows| && Wanted(p, rows[k]) :: rows[k].id
  }

  function ForgetAll(p: Pool, ids: set<nat>): Pool {
    p.(open := p.open - ids, live := p.live - Drivers(p.open, ids))
  }

  /** The open drivers of some of the entries. */
  function Drivers(open: map<nat, Entry>, ids: set<nat>): set<nat> {
    set id | id in ids && id in open && open[id].drv.Some? :: open[id].drv.value
  }

  /** A whole pass with nothing else going on. */
  function Sync(p: Pool, rows: seq<Iface>, w: World, now: int): Pool {
    var v := Prune(Visit(p, rows, w), now);
    ForgetAll(v, v.open.Keys - WantedIds(p, rows))
  }

  // ---- what a pass leaves ----

  predicate DistinctRows(rows: seq<Iface>) {
    forall j, k :: 0 <= j < k < |rows| ==> rows[j].id != rows[k].id
  }

  /** Drivers in the pool are live, each in one entry, and older than the next; an entry has a driver exactly
      when it has no error. */
  ghost predicate Valid(p: Pool) {
    && (forall id :: id in p.open ==> (p.open[id].drv.Some? <==> p.open[id].error.None?))
    && (forall id :: id in p.open && p.open[id].drv.Some? ==> p.open[id].drv.value in p.live)
    && (forall i, j :: i in p.open && j in p.open && i != j && p.open[i].drv.Some? ==> p.open[i].drv != p.open[j].drv)
    && (forall d :: d in p.live ==> d < p.next)
  }

  lemma VisitOneFacts(p: Pool, i: Iface, w: World)
    requires Valid(p)
    ensures var q := VisitOne(p, i, w);
            && Valid(q) && q.destroyed == p.destroyed && q.next >= p.next
            && q.open - {i.id} == p.open - {i.id}
            && (!Wanted(p, i) || LeftAlone(p, i, w) ==> q == p)
  {
  }

  /** Rows a pass has not come to are untouched, and marks are. */
  lemma {:induction false} VisitFacts(p: Pool, rows: seq<Iface>, w: World)
    requires Valid(p)
    ensures var q := Visit(p, rows, w);
            && Valid(q) && q.destroyed == p.destroyed && q.next >= p.next
            && (forall id :: (forall k :: 0 <= k < |rows| ==> rows[k].id != id) ==>
                  (id in q.open <==> id in p.open) && (id in p.open ==> q.open[id] == p.open[id]))
  {
    if rows != [] {
      var init, last := rows[..|rows| - 1], rows[|rows| - 1];
      VisitFacts(p, init, w);
      var q1 := Visit(p, init, w);
      VisitOneFacts(q1, last, w);
      var q := VisitOne(q1, last, w);
      forall id | forall k :: 0 <= k < |rows| ==> rows[k].id != id
        ensures (id in q.open <==> id in p.open) && (id in p.open ==> q.open[id] == p.open[id])
      {
        assert forall k :: 0 <= k < |init| ==> init[k] == rows[k];
        assert last.id != id;
        assert id in q.open <==> id in q.open - {last.id};
        assert id in q1.open <==> id in q1.open - {last.id};
        assert id in q.open ==> (q.open - {last.id})[id] == q.open[id];
        assert id in q1.open ==> (q1.open - {last.id})[id] == q1.open[id];
      }
    }
  }

  /** What a pass leaves of one row's entry: the same driver, a new one for what the row says now, or the failure. */
  ghost predicate Settled(p: Pool, q: Pool, i: Iface, w: World) {
    && i.id in q.open
    && (LeftAlone(p, i, w) ==> q.open[i.id] == p.open[i.id])
    && (!LeftAlone(p, i, w) && w.fails(i.id).None? ==>
          q.open[i.id].drv.Some? && q.open[i.id].drv.value >= p.next && q.open[i.id].fp == i.fp && q.open[i.id].error.None?)
    && (!LeftAlone(p, i, w) && w.fails(i.id).Some? ==> q.open[i.id] == Entry(None, "", w.fails(i.id)))
  }

  lemma {:induction false} VisitSettles(p: Pool, rows: seq<Iface>, w: World, k: nat)
    requires Valid(p) && DistinctRows(rows) && k < |rows| && Wanted(p, rows[k])
    ensures Settled(p, Visit(p, rows, w), rows[k], w)
  {
    var init, last := rows[..|rows| - 1], rows[|rows| - 1];
    VisitFacts(p, init, w);
    var q1 := Visit(p, init, w);
    VisitOneFacts(q1, last, w);
    if k == |rows| - 1 {
      assert forall j :: 0 <= j < |init| ==> init[j].id != last.id;
      assert q1.open - {} == q1.open;
    } else {
      assert init[k] == rows[k];
      VisitSettles(p, init, w, k);
      var q := VisitOne(q1, last, w);
      assert rows[k].id in q1.open - {last.id};
      assert (q.open - {last.id})[rows[k].id] == (q1.open - {last.id})[rows[k].id];
    }
  }

  /** After a pass over distinct rows, the pool is exactly the interfaces that are switched on and not
      deleted; each has the driver it had, unchanged and working, or a driver for what the row says now,
      or the failure to open one. */
  lemma SyncMatches(p: Pool, rows: seq<Iface>, w: World, now: int)
    requires Valid(p) && DistinctRows(rows)
    ensures var q := Sync(p, rows, w, now);
            && Valid(q) && q.open.Keys == WantedIds(p, rows)
            && (forall k :: 0 <= k < |rows| && Wanted(p, rows[k]) ==> Settled(p, q, rows[k], w))
            && (forall id :: id in p.destroyed && now - p.destroyed[id] <= MINUTE ==>
                  id in q.destroyed && q.destroyed[id] == p.destroyed[id])
  {
    var v := Visit(p, rows, w);
    var q := Sync(p, rows, w, now);
    VisitFacts(p, rows, w);
    forall k | 0 <= k < |rows| && Wanted(p, rows[k]) ensures Settled(p, v, rows[k], w) && rows[k].id in WantedIds(p, rows) {
      VisitSettles(p, rows, w, k);
    }
    assert WantedIds(p, rows) <= v.open.Keys;
    assert q.open == v.open - (v.open.Keys - WantedIds(p, rows));
    assert q.open.Keys == WantedIds(p, rows);
    ForgetAllValid(Prune(v, now), v.open.Keys - WantedIds(p, rows));
  }

  /** What the pool answers of an interface: its driver, or why it has none. */
  function DriverFor(p: Pool, id: nat): Option<nat> {
    if id in p.open then p.open[id].drv else None
  }

  function ErrorOf(p: Pool, id: nat): Option<string> {
    if id in p.open then p.open[id].error else None
  }

  /** After a pass, a row that is wanted is answered with the driver it had, when that was left alone; with a
      new one for what the row says, when one opens; and otherwise with the error of the attempt, and no
      driver. An interface that is off, deleted or not listed is answered with neither. */
  lemma SyncAnswers(p: Pool, rows: seq<Iface>, w: World, now: int)
    requires Valid(p) && DistinctRows(rows)
    ensures var q := Sync(p, rows, w, now);
            && (forall k :: 0 <= k < |rows| && Wanted(p, rows[k]) ==>
                  var id := rows[k].id;
                  if LeftAlone(p, rows[k], w) then DriverFor(q, id) == DriverFor(p, id) && ErrorOf(q, id) == None
                  else if w.fails(id).Some? then DriverFor(q, id) == None && ErrorOf(q, id) == w.fails(id)
                  else DriverFor(q, id).Some? && DriverFor(q, id).value >= p.next && q.open[id].fp == rows[k].fp && ErrorOf(q, id) == None)
            && (forall id :: (forall k :: 0 <= k < |rows| && rows[k].id == id ==> !Wanted(p, rows[k])) ==>
                  DriverFor(q, id) == None && ErrorOf(q, id) == None)
  {
    hide Sync, Wanted, LeftAlone;
    SyncMatches(p, rows, w, now);
    var q := Sync(p, rows, w, now);
    forall k | 0 <= k < |rows| && Wanted(p, rows[k]) && LeftAlone(p, rows[k], w) ensures rows[k].id in p.open && p.open[rows[k].id].drv.Some? {
      LeftHasDriver(p, rows[k], w);
    }
    forall id | id in q.open ensures exists k :: 0 <= k < |rows| && rows[k].id == id && Wanted(p, rows[k]) {
      var k :| 0 <= k < |rows| && Wanted(p, rows[k]) && rows[k].id == id;
    }
  }

  lemma LeftHasDriver(p: Pool, i: Iface, w: World)
    requires LeftAlone(p, i, w)
    ensures i.id in p.open && p.open[i.id].drv.Some?
  {
  }

  lemma ForgetAllValid(p: Pool, ids: set<nat>)
    requires Valid(p)
    ensures Valid(ForgetAll(p, ids))
  {
    var q := ForgetAll(p, ids);
    forall id | id in q.open && q.open[id].drv.Some? ensures q.open[id].drv.value in q.live {
      assert q.open[id].drv.value !in Drivers(p.open, ids);
    }
  }

  // ---- which drivers are left behind ----

  /** Live drivers the pool no longer holds. */
  function Leaked(p: Pool): set<nat> {
    p.live - Drivers(p.open, p.open.Keys)
  }

  /** The driver one row of a pass replaces with a failure. */
  function DroppedBy(p: Pool, i: Iface, w: World): set<nat> {
    if Wanted(p, i) && !LeftAlone(p, i, w) && w.fails(i.id).Some? then DriverOf(p, i.id) else {}
  }

  /** The drivers a pass replaces with a failure. */
  function Dropped(p: Pool, rows: seq<Iface>, w: World): set<nat> {
    if rows == [] then {} else Dropped(p, rows[..|rows| - 1], w) + DroppedBy(p, rows[|rows| - 1], w)
  }

  lemma VisitOneLeaks(p: Pool, i: Iface, w: World)
    requires Valid(p)
    ensures Leaked(VisitOne(p, i, w))
         == Leaked(p) + DroppedBy(p, i, w)
  {
    var q := VisitOne(p, i, w);
    var all, all' := Drivers(p.open, p.open.Keys), Drivers(q.open, q.open.Keys);
    if q != p {
      forall d | d != p.next ensures d in all' <==> d in all && d !in DriverOf(p, i.id) {
        if d in all' {
          var id :| id in q.open && q.open[id].drv == Some(d);
          assert id != i.id && id in p.open && p.open[id] == q.open[id];
        }
        if d in all && d !in DriverOf(p, i.id) {
          var id :| id in p.open && p.open[id].drv == Some(d);
          assert id in q.open && q.open[id] == p.open[id];
        }
      }
      if w.fails(i.id).None? {
        assert q.open[i.id].drv == Some(p.next);
      }
      assert p.next !in p.live && p.next !in all;
    }
  }

  lemma DroppedBySame(p: Pool, q: Pool, i: Iface, w: World)
    requires q.destroyed == p.destroyed
    requires (i.id in q.open <==> i.id in p.open) && (i.id in p.open ==> q.open[i.id] == p.open[i.id])
    ensures DroppedBy(q, i, w) == DroppedBy(p, i, w)
  {
  }

  lemma {:induction false} VisitLeaks(p: Pool, rows: seq<Iface>, w: World)
    requires Valid(p) && DistinctRows(rows)
    ensures Leaked(Visit(p, rows, w)) == Leaked(p) + Dropped(p, rows, w)
  {
    if rows != [] {
      var init, last := rows[..|rows| - 1], rows[|rows| - 1];
      var q1 := Visit(p, init, w);
      assert DistinctRows(init) && forall k :: 0 <= k < |init| ==> init[k].id != last.id by {
        assert forall k :: 0 <= k < |init| ==> init[k] == rows[k];
      }
      VisitLeaks(p, init, w);
      VisitFacts(p, init, w);
      DroppedBySame(p, q1, last, w);
      VisitOneLeaks(q1, last, w);
    }
  }

  lemma ForgetAllLeaks(p: Pool, ids: set<nat>)
    requires Valid(p)
    ensures Leaked(ForgetAll(p, ids)) == Leaked(p)
  {
    var q := ForgetAll(p, ids);
    forall d ensures d in Leaked(q) <==> d in Leaked(p) {
      if d in Drivers(p.open, p.open.Keys) && d !in Drivers(p.open, ids) {
        var id :| id in p.open && p.open[id].drv == Some(d);
        assert id in q.open && q.open[id].drv == Some(d);
      }
      if d in Drivers(q.open, q.open.Keys) {
        var id :| id in q.open && q.open[id].drv == Some(d);
        assert id in p.open && p.open[id].drv == Some(d);
        assert d !in Drivers(p.open, ids);
      }
    }
  }

  /** A pass closes every driver it takes out of the pool but those it replaces with a failure: a
      driver that was open and cannot be reopened is dropped without being closed. */
  lemma SyncLeaksExactly(p: Pool, rows: seq<Iface>, w: World, now: int)
    requires Valid(p) && DistinctRows(rows)
    ensures Leaked(Sync(p, rows, w, now)) == Leaked(p) + Dropped(p, rows, w)
  {
    VisitFacts(p, rows, w);
    VisitLeaks(p, rows, w);
    var v := Visit(p, rows, w);
    assert Leaked(Prune(v, now)) == Leaked(v);
    ForgetAllLeaks(Prune(v, now), v.open.Keys - WantedIds(p, rows));
  }

  // ---- a deletion holds against the passes that come after it ----

  /** Where the pass is, between two regions under the lock. */
  datatype Phase =
    | Idle
    | Looking(rest: seq<Iface>, want: set<nat>)
    | Opening(row: Iface, rest: seq<Iface>, want: set<nat>) // about to open a row it looked at
    | Pruning(want: set<nat>)
    | Closing(stale: set<nat>)

  /** The pool, one pass at a time, and the rows passes have opened. */
  datatype System = System(pool: Pool, phase: Phase, now: int, openings: seq<Iface>)

  datatype Step =
    | Tick(dt: nat)
    | Begin(rows: seq<Iface>)
    | Look(healthy: bool)
    | OpenRow(error: Option<string>)
    | PruneMarks
    | FindStale
    | CloseStale(id: nat)
    | Finish
    | Destroy(id: nat)
    | Down(id: nat)
    | OperatorOpen(row: Iface, error: Option<string>)
    | OperatorClose(id: nat)

  /** One step of the pass or of anything else; a step that does not fit the phase changes nothing. */
  function Next(s: System, step: Step): System {
    match step
    case Tick(dt) => s.(now := s.now + dt)
    case Begin(rows) => if s.phase.Idle? then s.(phase := Looking(rows, {})) else s
    case Look(healthy) =>
      if !s.phase.Looking? then s
      else if s.phase.rest == [] then s.(phase := Pruning(s.phase.want))
      else
        var row, rest := s.phase.rest[0], s.phase.rest[1..];
        if !Wanted(s.pool, row) then s.(phase := Looking(rest, s.phase.want))
        else if LeftAlone(s.pool, row, World(_ => healthy, _ => None)) then s.(phase := Looking(rest, s.phase.want + {row.id}))
        else s.(phase := Opening(row, rest, s.phase.want + {row.id}))
    case OpenRow(error) =>
      if !s.phase.Opening? then s
      else
        var row := s.phase.row;
        System(OpenOne(s.pool, row, error), Looking(s.phase.rest, s.phase.want), s.now,
               if error.None? then s.openings + [row] else s.openings)
    case PruneMarks => if s.phase.Pruning? then s.(pool := Prune(s.pool, s.now)) else s
    case FindStale => if s.phase.Pruning? then s.(phase := Closing(s.pool.open.Keys - s.phase.want)) else s
    case CloseStale(id) =>
      if s.phase.Closing? && id in s.phase.stale then s.(pool := Forget(s.pool, id), phase := Closing(s.phase.stale - {id})) else s
    case Finish => if s.phase.Closing? && s.phase.stale == {} then s.(phase := Idle) else s
    case Destroy(id) => s.(pool := TakeDown(s.pool, id, true, s.now))
    case Down(id) => s.(pool := TakeDown(s.pool, id, false, s.now))
    case OperatorOpen(row, error) => s.(pool := OpenOne(s.pool, row, error))
    case OperatorClose(id) => s.(pool := Forget(s.pool, id))
  }

  function RunSteps(s: System, steps: seq<Step>): System
    decreases |steps|
  {
    if steps == [] then s else RunSteps(Next(s, steps[0]), steps[1..])
  }

  lemma StepValid(s: System, step: Step)
    requires Valid(s.pool)
    ensures Valid(Next(s, step).pool)
  {
  }

  /** Over every run of passes, deletions and operators' calls, however they interleave: each driver is open
      and in one entry, and an entry has a driver or an error, never both and never neither. */
  lemma {:induction false} RunValid(s: System, steps: seq<Step>)
    requires Valid(s.pool)
    ensures Valid(RunSteps(s, steps).pool)
    decreases |steps|
  {
    if steps != [] {
      StepValid(s, steps[0]);
      RunValid(Next(s, steps[0]), steps[1..]);
    }
  }

  /** The interface was deleted at `at` or later, and no pass is about to open a row of it from before. */
  ghost predicate Guarded(s: System, id: nat, at: int) {
    && id in s.pool.destroyed && s.pool.destroyed[id] >= at && s.now >= at
    && (s.phase.Opening? ==> s.phase.row.id != id || s.phase.row.created > at)
  }

  ghost predicate OpenedSince(s: System, s': System, id: nat, at: int) {
    exists k :: |s.openings| <= k < |s'.openings| && s'.openings[k].id == id && s'.openings[k].created <= at
  }

  lemma StepGuards(s: System, step: Step, id: nat, at: int)
    requires Guarded(s, id, at) && Next(s, step).now <= at + MINUTE
    ensures Guarded(Next(s, step), id, at)
    ensures s.openings <= Next(s, step).openings && !OpenedSince(s, Next(s, step), id, at)
  {
  }

  lemma {:induction false} NowGrows(s: System, steps: seq<Step>)
    ensures RunSteps(s, steps).now >= s.now && s.openings <= RunSteps(s, steps).openings
    decreases |steps|
  {
    if steps != [] {
      NowGrows(Next(s, steps[0]), steps[1..]);
    }
  }

  /** From a deletion on, and for a minute, no pass opens a row of that interface created no later
      than the deletion, whatever else goes on, unless one had already looked at such a row. */
  lemma {:induction false} DestroyedStaysDown(s: System, steps: seq<Step>, id: nat, at: int)
    requires Guarded(s, id, at) && RunSteps(s, steps).now <= at + MINUTE
    ensures !OpenedSince(s, RunSteps(s, steps), id, at)
    decreases |steps|
  {
    if steps != [] {
      var s1 := Next(s, steps[0]);
      NowGrows(s1, steps[1..]);
      StepGuards(s, steps[0], id, at);
      DestroyedStaysDown(s1, steps[1..], id, at);
      var s2 := RunSteps(s, steps);
      forall k | |s.openings| <= k < |s2.openings| && s2.openings[k].id == id ensures s2.openings[k].created > at {
        if k < |s1.openings| {
          assert s2.openings[k] == s1.openings[k];
        }
      }
    }
  }

  /** A deletion is guarded from the moment it returns, exactly when no pass is between looking at an
      older row of that interface and opening it; where one is, its next step opens the row. */
  lemma DestroyGuardsUnlessInFlight(s: System, id: nat)
    ensures var s' := Next(s, Destroy(id));
            var inFlight := s.phase.Opening? && s.phase.row.id == id && s.phase.row.created <= s.now;
            && (Guarded(s', id, s.now) <==> !inFlight)
            && (inFlight ==> OpenedSince(s', Next(s', OpenRow(None)), id, s.now) && id in Next(s', OpenRow(None)).pool.open)
  {
    var s' := Next(s, Destroy(id));
    if s.phase.Opening? {
      assert Next(s', OpenRow(None)).openings[|s'.openings|] == s.phase.row;
    }
  }

  // ---- the pool as it runs ----

  class DriverTable {
    var open: map<nat, Entry>
    var destroyed: map<nat, int>
    var next: nat          // the next driver's number
    ghost var live: set<nat>

    ghost function State(): Pool
      reads this
    {
      Pool(open, destroyed, next, live)
    }

    constructor ()
      ensures State() == Pool(map[], map[], 0, {}) && Valid(State())
    {
      open, destroyed, next, live := map[], map[], 0, {};
    }

    /** The driver of an interface: one that is open, is no other interface's, and has no failure beside it.
        There is none exactly for an interface the pool does not know or could not open. */
    method Get(id: nat) returns (drv: Option<nat>)
      requires Valid(State())
      ensures drv.None? <==> id !in open || open[id].error.Some?
      ensures drv.Some? ==> drv.value in live && forall i :: i in open && open[i].drv == drv <==> i == id
    {
      drv := if id in open then open[id].drv else None;
    }

    /** Why an interface has no driver; nothing for one that has, or that the pool does not know. */
    method ErrorFor(id: nat) returns (error: Option<string>)
      requires Valid(State())
      ensures error.None? <==> id !in open || open[id].drv.Some?
      ensures error.Some? ==> open[id] == Entry(None, open[id].fp, error)
    {
      error := if id in open then open[id].error else None;
    }

    method Record(id: nat, error: string)
      modifies this`open
      ensures State() == Fail(old(State()), id, error)
    {
      open := open[id := Entry(None, "", Some(error))];
    }

    /** Open a driver; the previous one is closed once the new one is in its place. */
    method Open(row: Iface, error: Option<string>)
      modifies this
      ensures State() == OpenOne(old(State()), row, error)
    {
      if error.Some? {
        Record(row.id, error.value);
        return;
      }
      var drv := next;
      next := next + 1;
      live := live + {drv};
      var old_ := if row.id in open then open[row.id].drv else None;
      open := open[row.id := Entry(Some(drv), row.fp, None)];
      if old_.Some? {
        live := live - {old_.value};
      }
    }

    method Close(id: nat)
      modifies this
      ensures State() == Forget(old(State()), id)
    {
      var e := if id in open then open[id].drv else None;
      open := open - {id};
      if e.Some? {
        live := live - {e.value};
      }
    }

    method TakeInterfaceDown(id: nat, forGood: bool, now: int)
      modifies this
      ensures State() == TakeDown(old(State()), id, forGood, now)
    {
      Close(id);
      if forGood {
        destroyed := destroyed[id := now];
      }
    }

    /** One pass over the rows: visit each, close what is not wanted, and forget old deletions. */
    method SyncNow(rows: seq<Iface>, w: World, now: int)
      requires Valid(State()) && DistinctRows(rows)
      modifies this
      ensures State() == Sync(old(State()), rows, w, now)
    {
      var want: set<nat> := {};
      for k := 0 to |rows|
        invariant State() == Visit(old(State()), rows[..k], w)
        invariant want == WantedIds(old(State()), rows[..k])
      {
        var row := rows[k];
        VisitFacts(old(State()), rows[..k], w);
        assert rows[..k + 1][..k] == rows[..k];
        WantedGrows(old(State()), rows, k);
        if row.enabled && !(row.id in destroyed && row.created <= destroyed[row.id]) {
          want := want + {row.id};
          if !(row.id in open && open[row.id].drv.Some? && open[row.id].fp == row.fp && w.healthy(open[row.id].drv.value)) {
            Open(row, w.fails(row.id));
          }
        }
      }
      assert rows[..|rows|] == rows;
      destroyed := map id | id in destroyed && now - destroyed[id] <= MINUTE :: destroyed[id];
      var stale := open.Keys - want;
      ghost var before := State();
      while stale != {}
        invariant ForgetAll(State(), stale) == ForgetAll(before, before.open.Keys - want)
        decreases stale
      {
        var id :| id in stale;
        ForgetOneMore(State(), stale, id);
        Close(id);
        stale := stale - {id};
      }
      assert State() == ForgetAll(State(), {});
    }
  }

  lemma WantedGrows(p: Pool, rows: seq<Iface>, k: nat)
    requires k < |rows|
    ensures WantedIds(p, rows[..k + 1]) == WantedIds(p, rows[..k]) + (if Wanted(p, rows[k]) then {rows[k].id} else {})
  {
    var now, before := WantedIds(p, rows[..k + 1]), WantedIds(p, rows[..k]);
    forall id ensures id in now <==> id in before || (Wanted(p, rows[k]) && id == rows[k].id) {
      if id in before {
        var j :| 0 <= j < k && Wanted(p, rows[..k][j]) && rows[..k][j].id == id;
        assert rows[..k + 1][j] == rows[..k][j];
      }
      if Wanted(p, rows[k]) && id == rows[k].id {
        assert rows[..k + 1][k] == rows[k];
      }
    }
  }

  lemma ForgetOneMore(p: Pool, ids: set<nat>, id: nat)
    requires id in ids
    ensures ForgetAll(Forget(p, id), ids - {id}) == ForgetAll(p, ids)
  {
    var q := Forget(p, id);
    assert q.open - (ids - {id}) == p.open - ids;
    forall d ensures d in Drivers(p.open, ids) <==> d in DriverOf(p, id) || d in Drivers(q.open, ids - {id}) {
      if d in Drivers(p.open, ids) && d !in DriverOf(p, id) {
        var j :| j in ids && j in p.open && p.open[j].drv == Some(d);
        assert j in q.open && q.open[j] == p.open[j];
      }
      if d in Drivers(q.open, ids - {id}) {
        var j :| j in ids - {id} && j in q.open && q.open[j].drv == Some(d);
        assert j in p.open && p.open[j] == q.open[j];
      }
    }
  }
}
