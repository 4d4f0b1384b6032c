/**
  Staging an archive and putting it in place at the next start, when the
  process may die between any two operations on the disk.
 */
module Restore {
  import opened Prelude
  import opened DataDirectory

  /** What a start is configured with, and what this run of it happens to meet: the order files are
      listed and removed in, which renames the file system refuses, and what a copy passes through. */
  datatype Run = Run(dbFile: Option<Path>, driver: Content -> string,
                     walk: seq<Path>, sidecars: seq<Path>, sweep: seq<Path>,
                     renames: Path -> bool, parts: Path -> seq<Content>)

  predicate Movable(p: Path) {
    !p.Marker? && !p.Stash? && !p.Export? && !p.Key?
  }

  /** Whether the database comes back as a file, or else from the dump. */
  predicate ByFile(dbFile: Option<Path>, driver: Content -> string, staged: map<Path, Content>) {
    && dbFile.Some? && dbFile.value in staged
    && !(Export in staged && driver(staged[Export]) != "sqlite")
  }

  /** Where a staged file goes, if anywhere. */
  function Target(rel: Path, byFile: bool): Option<Path> {
    match rel
    case Marker => None
    case Stash => None
    case Key(_) => None
    case Export => if byFile then None else Some(PendingImport)
    case Db(_) => if byFile then Some(rel) else None
    case _ => Some(rel)
  }

  /** Put one staged file in place: renamed, or copied where the rename is refused. */
  function Place(run: Run, rel: Path, dst: Path, content: Content): (ops: seq<Op>)
    ensures ops != []
  {
    if run.renames(rel) then [Move(rel, dst)]
    else Writes(dst, run.parts(rel)) + [PutLive(dst, content)]
  }

  function Writes(dst: Path, parts: seq<Content>): (ops: seq<Op>)
    ensures |ops| == |parts| && forall i :: 0 <= i < |ops| ==> ops[i] == PutLive(dst, parts[i])
  {
    seq(|parts|, i requires 0 <= i < |parts| => PutLive(dst, parts[i]))
  }

  ghost predicate Listing(names: seq<Path>, m: map<Path, Content>) {
    && (forall i, j :: 0 <= i < j < |names| ==> names[i] != names[j])
    && (forall p :: p in names <==> p in m)
  }

  /** The dump's own place, should an archive hold it, is listed before the dump: the listing is by name. */
  predicate DumpLast(walk: seq<Path>) {
    forall j, k :: 0 <= j < |walk| && 0 <= k < |walk| && walk[j] == Export && walk[k] == PendingImport ==> k < j
  }

  /** The lists a run works from name what they are lists of. */
  ghost predicate Lists(run: Run, d: Disk) {
    && Listing(run.walk, d.staged) && DumpLast(run.walk)
    && (forall p :: p in d.staged ==> p in run.sweep)
    && (forall p :: (p in d.live || p in d.staged) && p.Sidecar? ==> p in run.sidecars)
    && (forall p :: p in run.sidecars ==> p.Sidecar?)
  }

  /** Where each staged file goes, for those that go anywhere. */
  ghost function Routes(staged: map<Path, Content>, byFile: bool): map<Path, Path> {
    map rel | rel in staged && Target(rel, byFile).Some? :: Target(rel, byFile).value
  }

  /** The operations that place entries `i` and on. */
  ghost function Moves(run: Run, staged: map<Path, Content>, to: map<Path, Path>, i: nat): seq<Op>
    requires i <= |run.walk| && Listing(run.walk, staged)
    decreases |run.walk| - i
  {
    if i == |run.walk| then []
    else
      var rel := run.walk[i];
      (if rel in to then Place(run, rel, to[rel], staged[rel]) else []) + Moves(run, staged, to, i + 1)
  }

  function Clears(names: seq<Path>): (ops: seq<Op>)
    ensures |ops| == |names| && forall i :: 0 <= i < |ops| ==> ops[i] == DropLive(names[i])
  {
    seq(|names|, i requires 0 <= i < |names| => DropLive(names[i]))
  }

  ghost function RoutesOf(run: Run, d: Disk): map<Path, Path> {
    Routes(d.staged, ByFile(run.dbFile, run.driver, d.staged))
  }

  /** Everything a start does to the disk before the database is opened. */
  ghost function ApplyPlan(run: Run, d: Disk): seq<Op>
    requires Lists(run, d)
  {
    if Marker !in d.staged then Drops(run.sweep)
    else
      Moves(run, d.staged, RoutesOf(run, d), 0) + (Clears(run.sidecars) + Drops(run.sweep))
  }

  // ---- what a finished start leaves ----

  /** What the live file `p` holds once a start on `d` is finished. */
  function After(dbFile: Option<Path>, driver: Content -> string, d: Disk, p: Path): Option<Content> {
    if Marker !in d.staged then Get(d.live, p)
    else if p.Sidecar? then None
    else if p == PendingImport && Export in d.staged && !ByFile(dbFile, driver, d.staged) then Some(d.staged[Export])
    else if Movable(p) && p in d.staged && (ByFile(dbFile, driver, d.staged) || !p.Db?) then Some(d.staged[p])
    else Get(d.live, p)
  }

  /** Files whose fate does not hang on which engine the archive's database is for. */
  predicate Ordinary(p: Path) {
    p != PendingImport && !p.Db?
  }

  /** Any other staged file that goes where `p` goes is the same and not being moved. */
  ghost predicate Uncontested(to: map<Path, Path>, staged: map<Path, Content>, busy: set<Path>, p: Path) {
    p in to && p in staged && forall q :: q in to && q != p && to[q] == to[p] ==> q in staged && staged[q] == staged[p] && q !in busy
  }

  /** Part way through moving `staged` over `live`: the files in `placed` are where they go, and of the
      live files only those that files in `placed` and `busy` go to are changed. */
  ghost predicate Midway(live: map<Path, Content>, staged: map<Path, Content>, to: map<Path, Path>,
                         d: Disk, placed: set<Path>, busy: set<Path>)
  {
    && (forall p :: p in d.staged ==> p in staged && d.staged[p] == staged[p])
    && (forall p :: p in staged && p !in d.staged ==> p in placed && p in to)
    && (forall p :: p in placed && Uncontested(to, staged, busy, p) ==> Get(d.live, to[p]) == Some(staged[p]))
    && (forall x :: Get(d.live, x) != Get(live, x) ==> exists p :: p in placed + busy && p in to && to[p] == x)
  }

  ghost function Before(run: Run, i: nat): set<Path>
    requires i <= |run.walk|
  {
    set j | 0 <= j < i :: run.walk[j]
  }

  lemma {:induction false} MovesStayMidway(run: Run, live: map<Path, Content>, staged: map<Path, Content>,
                                           to: map<Path, Path>, d: Disk, i: nat, k: nat)
    returns (i': nat, busy: set<Path>)
    requires i <= |run.walk| && Listing(run.walk, staged) && Midway(live, staged, to, d, Before(run, i), {})
    requires k <= |Moves(run, staged, to, i)|
    ensures i <= i' <= |run.walk|
    ensures Midway(live, staged, to, Exec(d, Moves(run, staged, to, i)[..k]), Before(run, i'), busy)
    ensures i' < |run.walk| ==> busy <= {run.walk[i']}
    ensures k == |Moves(run, staged, to, i)| ==> i' == |run.walk|
    ensures i' == |run.walk| ==> busy == {}
    decreases |run.walk| - i
  {
    hide Midway, Place;
    busy := {};
    if i == |run.walk| {
      return i, busy;
    }
    var rel := run.walk[i];
    var ops, rest := Moves(run, staged, to, i), Moves(run, staged, to, i + 1);
    assert Before(run, i + 1) == Before(run, i) + {rel};
    if rel !in to {
      assert ops == rest;
      SkipStays(live, staged, to, d, Before(run, i), rel);
      i', busy := MovesStayMidway(run, live, staged, to, d, i + 1, k);
      return;
    }
    var place := Place(run, rel, to[rel], staged[rel]);
    ExecPrefix(d, place, rest, k);
    if k < |place| {
      PartialPlaceStays(run, live, staged, to, d, Before(run, i), rel, k);
      return i, {rel};
    }
    PlaceStays(run, live, staged, to, d, Before(run, i), rel);
    i', busy := MovesStayMidway(run, live, staged, to, Exec(d, place), i + 1, k - |place|);
  }

  lemma SkipStays(live: map<Path, Content>, staged: map<Path, Content>, to: map<Path, Path>,
                  d: Disk, placed: set<Path>, rel: Path)
    requires Midway(live, staged, to, d, placed, {}) && rel !in to
    ensures Midway(live, staged, to, d, placed + {rel}, {})
  {
    forall x | Get(d.live, x) != Get(live, x)
      ensures exists p :: p in placed + {rel} + {} && p in to && to[p] == x
    {
      var p :| p in placed + {} && p in to && to[p] == x;
      assert p in placed + {rel} + {};
    }
  }

  lemma {:induction false} ExecWrites(d: Disk, dst: Path, parts: seq<Content>, k: nat)
    requires k <= |parts|
    ensures var d' := Exec(d, Writes(dst, parts)[..k]);
            d'.staged == d.staged && forall p :: p != dst ==> Get(d'.live, p) == Get(d.live, p)
    decreases k
  {
    var ops := Writes(dst, parts)[..k];
    if k > 0 {
      assert ops == Writes(dst, parts)[..k - 1] + [PutLive(dst, parts[k - 1])];
      ExecConcat(d, Writes(dst, parts)[..k - 1], [PutLive(dst, parts[k - 1])]);
      ExecWrites(d, dst, parts, k - 1);
    }
  }

  /** A change to one live file that entry `rel` goes to. */
  lemma TouchStays(live: map<Path, Content>, staged: map<Path, Content>, to: map<Path, Path>,
                   d: Disk, d': Disk, placed: set<Path>, rel: Path)
    requires Midway(live, staged, to, d, placed, {}) && rel in to && rel !in placed
    requires d'.staged == d.staged && forall p :: p != to[rel] ==> Get(d'.live, p) == Get(d.live, p)
    ensures Midway(live, staged, to, d', placed, {rel})
  {
    forall x | Get(d'.live, x) != Get(live, x)
      ensures exists p :: p in placed + {rel} && p in to && to[p] == x
    {
      if x == to[rel] {
        assert rel in placed + {rel};
      } else {
        var p :| p in placed + {} && p in to && to[p] == x;
        assert p in placed + {rel};
      }
    }
  }

  lemma PartialPlaceStays(run: Run, live: map<Path, Content>, staged: map<Path, Content>, to: map<Path, Path>,
                          d: Disk, placed: set<Path>, rel: Path, k: nat)
    requires Midway(live, staged, to, d, placed, {}) && rel in staged && rel in to && rel !in placed
    requires k < |Place(run, rel, to[rel], staged[rel])|
    ensures Midway(live, staged, to, Exec(d, Place(run, rel, to[rel], staged[rel])[..k]), placed, {rel})
  {
    var place := Place(run, rel, to[rel], staged[rel]);
    if run.renames(rel) {
      assert place[..k] == [];
    } else {
      assert place[..k] == Writes(to[rel], run.parts(rel))[..k];
      ExecWrites(d, to[rel], run.parts(rel), k);
    }
    TouchStays(live, staged, to, d, Exec(d, place[..k]), placed, rel);
  }

  /** A placed file is live, whole, and its source may be gone. */
  lemma ExecPlace(run: Run, d: Disk, rel: Path, dst: Path)
    requires rel in d.staged
    ensures var d' := Exec(d, Place(run, rel, dst, d.staged[rel]));
            && Get(d'.live, dst) == Some(d.staged[rel])
            && (forall p :: p != dst ==> Get(d'.live, p) == Get(d.live, p))
            && d'.staged == (if run.renames(rel) then d.staged - {rel} else d.staged)
  {
    var content := d.staged[rel];
    var place := Place(run, rel, dst, content);
    var d' := Exec(d, place);
    if run.renames(rel) {
      assert place == [Move(rel, dst)] && place[1..] == [];
      assert Exec(Do(d, place[0]), place[1..]) == d';
    } else {
      var w := Writes(dst, run.parts(rel));
      assert w[..|w|] == w;
      ExecWrites(d, dst, run.parts(rel), |w|);
      ExecConcat(d, w, [PutLive(dst, content)]);
      assert d' == Do(Exec(d, w), PutLive(dst, content));
    }
  }

  lemma PlaceStays(run: Run, live: map<Path, Content>, staged: map<Path, Content>, to: map<Path, Path>,
                   d: Disk, placed: set<Path>, rel: Path)
    requires Midway(live, staged, to, d, placed, {}) && rel in staged && rel in to && rel !in placed
    ensures Midway(live, staged, to, Exec(d, Place(run, rel, to[rel], staged[rel])), placed + {rel}, {})
  {
    assert rel in d.staged;
    ExecPlace(run, d, rel, to[rel]);
    var d' := Exec(d, Place(run, rel, to[rel], staged[rel]));
    TouchStays(live, staged, to, d, d'.(staged := d.staged), placed, rel);
    assert placed + {rel} + {} == placed + {rel};
    forall p | p in placed + {rel} && Uncontested(to, staged, {}, p)
      ensures Get(d'.live, to[p]) == Some(staged[p])
    {
      if p != rel && to[p] != to[rel] {
        assert Uncontested(to, staged, {rel}, p);
      }
    }
  }

  // ---- the two phases after the moves ----

  lemma {:induction false} ExecClears(d: Disk, names: seq<Path>)
    ensures var d' := Exec(d, Clears(names));
            d'.staged == d.staged && d'.live == d.live - (set n | n in names)
    decreases |names|
  {
    if names != [] {
      assert Clears(names)[1..] == Clears(names[1..]);
      ExecClears(Do(d, DropLive(names[0])), names[1..]);
      assert (set n | n in names) == {names[0]} + (set n | n in names[1..]);
    }
  }

  /** After the moves left `d1`: some sidecars are cleared, and then some of the staging directory is gone. */
  ghost predicate Tidying(run: Run, d1: Disk, d: Disk) {
    && (forall p :: Get(d.live, p) != Get(d1.live, p) ==> p.Sidecar? && p !in d.live)
    && (forall p :: p in d.staged ==> p in d1.staged && d.staged[p] == d1.staged[p])
    && (d.staged == d1.staged || forall p :: p in run.sidecars ==> p !in d.live)
  }

  lemma TidyPrefix(run: Run, d1: Disk, m: nat)
    requires forall p :: p in run.sidecars ==> p.Sidecar?
    requires m <= |Clears(run.sidecars) + Drops(run.sweep)|
    ensures Tidying(run, d1, Exec(d1, (Clears(run.sidecars) + Drops(run.sweep))[..m]))
    ensures m == |Clears(run.sidecars) + Drops(run.sweep)| ==>
              && (forall p :: p in run.sidecars ==> p !in Exec(d1, (Clears(run.sidecars) + Drops(run.sweep))[..m]).live)
              && (forall p :: p in run.sweep ==> p !in Exec(d1, (Clears(run.sidecars) + Drops(run.sweep))[..m]).staged)
  {
    var clears, drops := Clears(run.sidecars), Drops(run.sweep);
    ExecPrefix(d1, clears, drops, m);
    if m <= |clears| {
      assert clears[..m] == Clears(run.sidecars[..m]);
      ExecClears(d1, run.sidecars[..m]);
    }
    if m >= |clears| {
      var n := m - |clears|;
      assert drops[..n] == Drops(run.sweep[..n]);
      ExecClears(d1, run.sidecars);
      ExecDrops(Exec(d1, clears), run.sweep[..n]);
      assert n == |drops| ==> run.sweep[..n] == run.sweep;
    }
  }

  /** Everything is moved, and what is left is being tidied away. */
  ghost predicate Finishing(run: Run, d0: Disk, d1: Disk, d: Disk)
    requires Lists(run, d0)
  {
    Midway(d0.live, d0.staged, RoutesOf(run, d0), d1, Before(run, |run.walk|), {}) && Tidying(run, d1, d)
  }

  lemma NothingMoved(live: map<Path, Content>, staged: map<Path, Content>, to: map<Path, Path>, d: Disk)
    requires d == Disk(live, staged)
    ensures Midway(live, staged, to, d, {}, {})
  {
  }

  /** A start that stops anywhere stopped among the moves, or after all of them. */
  lemma PlanPrefix(run: Run, d0: Disk, k: nat) returns (i: nat, busy: set<Path>, d1: Disk)
    requires Lists(run, d0) && Marker in d0.staged && k <= |ApplyPlan(run, d0)|
    ensures i <= |run.walk|
    ensures (Midway(d0.live, d0.staged, RoutesOf(run, d0), Exec(d0, ApplyPlan(run, d0)[..k]), Before(run, i), busy)
             && (i < |run.walk| ==> busy <= {run.walk[i]}) && (i == |run.walk| ==> busy == {}))
            || Finishing(run, d0, d1, Exec(d0, ApplyPlan(run, d0)[..k]))
  {
    hide RoutesOf, Midway, Exec, Tidying, Place;
    NothingMoved(d0.live, d0.staged, RoutesOf(run, d0), d0);
    var to := RoutesOf(run, d0);
    var moves, tidy := Moves(run, d0.staged, to, 0), Clears(run.sidecars) + Drops(run.sweep);
    assert Before(run, 0) == {};
    ExecPrefix(d0, moves, tidy, k);
    if k < |moves| {
      i, busy := MovesStayMidway(run, d0.live, d0.staged, to, d0, 0, k);
      d1 := d0;
    } else {
      assert moves[..|moves|] == moves;
      i, busy := MovesStayMidway(run, d0.live, d0.staged, to, d0, 0, |moves|);
      d1 := Exec(d0, moves);
      TidyPrefix(run, d1, k - |moves|);
    }
  }

  /** A finished start has moved everything and tidied everything away. */
  lemma PlanFinishes(run: Run, d0: Disk) returns (d1: Disk)
    requires Lists(run, d0) && Marker in d0.staged
    ensures Midway(d0.live, d0.staged, RoutesOf(run, d0), d1, Before(run, |run.walk|), {})
    ensures var d := Exec(d0, ApplyPlan(run, d0));
            && Tidying(run, d1, d)
            && (forall p :: p in run.sidecars ==> p !in d.live)
            && d.staged == map[]
  {
    var to := RoutesOf(run, d0);
    var moves, tidy := Moves(run, d0.staged, to, 0), Clears(run.sidecars) + Drops(run.sweep);
    assert Before(run, 0) == {};
    assert moves[..|moves|] == moves;
    var i, busy := MovesStayMidway(run, d0.live, d0.staged, to, d0, 0, |moves|);
    d1 := Exec(d0, moves);
    ExecConcat(d0, moves, tidy);
    assert tidy[..|tidy|] == tidy;
    TidyPrefix(run, d1, |tidy|);
    var d := Exec(d1, tidy);
    assert forall p :: p in d.staged ==> p in run.sweep;
  }

  // ---- a crash anywhere, and any number of them ----

  /** The dump and a file of the archive that has the dump's own place are the same. */
  predicate DumpAgrees(staged: map<Path, Content>) {
    Export in staged && PendingImport in staged ==> staged[Export] == staged[PendingImport]
  }

  lemma EachListed(run: Run, d0: Disk)
    requires Lists(run, d0)
    ensures forall p :: p in d0.staged <==> p in Before(run, |run.walk|)
    ensures forall p :: p in d0.staged <==> p in run.walk
  {
    forall p ensures p in d0.staged <==> p in Before(run, |run.walk|) {
    }
  }

  lemma OneSource(staged: map<Path, Content>, byFile: bool, busy: set<Path>, p: Path)
    requires p in Routes(staged, byFile) && p != PendingImport && p != Export
    ensures Uncontested(Routes(staged, byFile), staged, busy, p)
  {
  }

  lemma AgreedSource(staged: map<Path, Content>, byFile: bool, p: Path)
    requires p in Routes(staged, byFile) && (Export !in Routes(staged, byFile) || DumpAgrees(staged))
    ensures Uncontested(Routes(staged, byFile), staged, {}, p)
  {
  }

  lemma RoutesFacts(run: Run, d0: Disk)
    requires Lists(run, d0)
    ensures var to := RoutesOf(run, d0);
            && (forall p :: p in to ==> p in d0.staged && p in run.walk && p != Marker)
            && (forall p :: p in to && p != Export ==> to[p] == p && Movable(p))
            && (Export in to ==> to[Export] == PendingImport)
            && (forall p :: p in d0.staged && Movable(p) && (ByFile(run.dbFile, run.driver, d0.staged) || !p.Db?) ==> p in to)
            && (forall p :: p in to && p.Db? ==> ByFile(run.dbFile, run.driver, d0.staged))
            && (Export in d0.staged && !ByFile(run.dbFile, run.driver, d0.staged) <==> Export in to)
            && (forall p, busy :: p in to && p != PendingImport && p != Export ==> Uncontested(to, d0.staged, busy, p))
            && (Export !in to || DumpAgrees(d0.staged) ==> forall p :: p in to ==> Uncontested(to, d0.staged, {}, p))
            && (forall p :: p in d0.staged <==> p in Before(run, |run.walk|))
  {
    hide Uncontested, Listing;
    var to := RoutesOf(run, d0);
    EachListed(run, d0);
    forall p, busy | p in to && p != PendingImport && p != Export ensures Uncontested(to, d0.staged, busy, p) {
      OneSource(d0.staged, ByFile(run.dbFile, run.driver, d0.staged), busy, p);
    }
    if Export !in to || DumpAgrees(d0.staged) {
      forall p | p in to ensures Uncontested(to, d0.staged, {}, p) {
        AgreedSource(d0.staged, ByFile(run.dbFile, run.driver, d0.staged), p);
      }
    }
  }

  /** Once everything is moved, what is live is what a finished start leaves. */
  lemma MovedIsAfter(run: Run, d0: Disk, d1: Disk, p: Path)
    requires Lists(run, d0) && Marker in d0.staged
    requires Midway(d0.live, d0.staged, RoutesOf(run, d0), d1, Before(run, |run.walk|), {})
    requires !p.Sidecar? && (p == PendingImport ==> Export !in RoutesOf(run, d0) || DumpAgrees(d0.staged))
    ensures Get(d1.live, p) == After(run.dbFile, run.driver, d0, p)
  {
    hide RoutesOf, Routes, Uncontested, Target, Lists;
    RoutesFacts(run, d0);
  }

  lemma MidwayIsAfter(run: Run, d0: Disk, d: Disk, i: nat, busy: set<Path>, p: Path)
    requires Lists(run, d0) && Marker in d0.staged && Ordinary(p) && i <= |run.walk|
    requires Midway(d0.live, d0.staged, RoutesOf(run, d0), d, Before(run, i), busy)
    ensures After(run.dbFile, run.driver, d, p) == After(run.dbFile, run.driver, d0, p)
  {
    hide RoutesOf, Routes, Uncontested, Target, Lists;
    RoutesFacts(run, d0);
  }

  lemma FinishingIsAfter(run: Run, d0: Disk, d1: Disk, d: Disk, p: Path)
    requires Lists(run, d0) && Marker in d0.staged && Finishing(run, d0, d1, d)
    requires Ordinary(p)
    ensures After(run.dbFile, run.driver, d, p) == After(run.dbFile, run.driver, d0, p)
  {
    hide RoutesOf, Routes, Uncontested, Target, Before;
    RoutesFacts(run, d0);
    if p.Sidecar? {
      if Marker !in d.staged {
        assert p in d1.live ==> p in d0.live || p in d0.staged;
      }
    } else {
      MovedIsAfter(run, d0, d1, p);
    }
  }

  /** A start that stops anywhere leaves a later one to finish with the same ordinary files. */
  lemma CrashKeepsOrdinary(run: Run, d0: Disk, k: nat, p: Path)
    requires Lists(run, d0) && k <= |ApplyPlan(run, d0)| && Ordinary(p)
    ensures After(run.dbFile, run.driver, Exec(d0, ApplyPlan(run, d0)[..k]), p) == After(run.dbFile, run.driver, d0, p)
  {
    var d := Exec(d0, ApplyPlan(run, d0)[..k]);
    if Marker !in d0.staged {
      assert ApplyPlan(run, d0)[..k] == Drops(run.sweep[..k]);
      ExecDrops(d0, run.sweep[..k]);
    } else {
      var i, busy, d1 := PlanPrefix(run, d0, k);
      if Finishing(run, d0, d1, d) {
        FinishingIsAfter(run, d0, d1, d, p);
      } else {
        MidwayIsAfter(run, d0, d, i, busy, p);
      }
    }
  }

  /** The sidecars that could be there when the moves are made were there, or staged, before them. */
  lemma SidecarsKnown(run: Run, d0: Disk, d1: Disk, p: Path)
    requires Lists(run, d0) && Midway(d0.live, d0.staged, RoutesOf(run, d0), d1, Before(run, |run.walk|), {})
    requires p.Sidecar? && p in d1.live
    ensures p in run.sidecars
  {
    hide ByFile;
    if p !in d0.live {
      assert Get(d1.live, p) != Get(d0.live, p);
      var to := RoutesOf(run, d0);
      var q :| q in Before(run, |run.walk|) + {} && q in to && to[q] == p;
      assert Target(q, ByFile(run.dbFile, run.driver, d0.staged)) == Some(p);
      assert q == p;
    }
  }

  /** The operations that place the entries before `n`. */
  ghost function MovesTo(run: Run, staged: map<Path, Content>, to: map<Path, Path>, n: nat): seq<Op>
    requires n <= |run.walk| && Listing(run.walk, staged)
  {
    if n == 0 then []
    else
      var rel := run.walk[n - 1];
      MovesTo(run, staged, to, n - 1) + (if rel in to then Place(run, rel, to[rel], staged[rel]) else [])
  }

  lemma Regroup(a: seq<Op>, b: seq<Op>, c: seq<Op>)
    ensures a + (b + c) == a + b + c
  {
  }

  lemma {:induction false} MovesSplit(run: Run, staged: map<Path, Content>, to: map<Path, Path>, n: nat)
    requires n <= |run.walk| && Listing(run.walk, staged)
    ensures Moves(run, staged, to, 0) == MovesTo(run, staged, to, n) + Moves(run, staged, to, n)
  {
    hide Place, Writes;
    if n > 0 {
      MovesSplit(run, staged, to, n - 1);
      var rel := run.walk[n - 1];
      var place := if rel in to then Place(run, rel, to[rel], staged[rel]) else [];
      Regroup(MovesTo(run, staged, to, n - 1), place, Moves(run, staged, to, n));
    }
  }

  lemma {:induction false} PlacedBefore(run: Run, d0: Disk, to: map<Path, Path>, n: nat)
    requires n <= |run.walk| && Listing(run.walk, d0.staged)
    ensures Midway(d0.live, d0.staged, to, Exec(d0, MovesTo(run, d0.staged, to, n)), Before(run, n), {})
  {
    if n == 0 {
      assert Before(run, n) == {};
    } else {
      var rel := run.walk[n - 1];
      var before := MovesTo(run, d0.staged, to, n - 1);
      PlacedBefore(run, d0, to, n - 1);
      assert Before(run, n) == Before(run, n - 1) + {rel};
      if rel in to {
        ExecConcat(d0, before, Place(run, rel, to[rel], d0.staged[rel]));
        PlaceStays(run, d0.live, d0.staged, to, Exec(d0, before), Before(run, n - 1), rel);
      } else {
        assert before + [] == before;
        SkipStays(d0.live, d0.staged, to, Exec(d0, before), Before(run, n - 1), rel);
      }
    }
  }

  /** A renamed entry is no longer staged. */
  lemma RenamedIsGone(run: Run, d0: Disk, to: map<Path, Path>, n: nat)
    requires n < |run.walk| && Listing(run.walk, d0.staged) && run.walk[n] in to && run.renames(run.walk[n])
    ensures run.walk[n] !in Exec(d0, MovesTo(run, d0.staged, to, n + 1)).staged
  {
    var rel := run.walk[n];
    var before := MovesTo(run, d0.staged, to, n);
    ExecConcat(d0, before, [Move(rel, to[rel])]);
    var d := Exec(d0, before);
    assert [Move(rel, to[rel])][1..] == [];
    assert Exec(d, [Move(rel, to[rel])]) == Exec(Do(d, Move(rel, to[rel])), []);
  }

  // ---- the dump over a file that has its place ----

  predicate Misses(op: Op, x: Path) {
    match op
    case Move(_, dst) => dst != x
    case PutLive(p, _) => p != x
    case DropLive(p) => p != x
    case _ => true
  }

  lemma {:induction false} OpsMiss(d: Disk, ops: seq<Op>, x: Path)
    requires forall i :: 0 <= i < |ops| ==> Misses(ops[i], x)
    ensures Get(Exec(d, ops).live, x) == Get(d.live, x)
    decreases |ops|
  {
    if ops != [] {
      OpsMiss(Do(d, ops[0]), ops[1..], x);
    }
  }

  lemma {:induction false} MovesMiss(run: Run, staged: map<Path, Content>, to: map<Path, Path>, i: nat, x: Path)
    requires i <= |run.walk| && Listing(run.walk, staged)
    requires forall j :: i <= j < |run.walk| && run.walk[j] in to ==> to[run.walk[j]] != x
    ensures forall k :: 0 <= k < |Moves(run, staged, to, i)| ==> Misses(Moves(run, staged, to, i)[k], x)
    decreases |run.walk| - i
  {
    if i < |run.walk| {
      MovesMiss(run, staged, to, i + 1, x);
    }
  }

  lemma TidyMisses(run: Run)
    requires forall p :: p in run.sidecars ==> p.Sidecar?
    ensures var tidy := Clears(run.sidecars) + Drops(run.sweep); forall i :: 0 <= i < |tidy| ==> Misses(tidy[i], PendingImport)
  {
    var clears, drops := Clears(run.sidecars), Drops(run.sweep);
    forall i | 0 <= i < |clears| ensures Misses(clears[i], PendingImport) {
      assert run.sidecars[i] in run.sidecars;
    }
    forall i | 0 <= i < |drops| ensures Misses(drops[i], PendingImport) {
      assert drops[i].DropStaged?;
    }
  }

  /** Past the dump nothing goes where it went. */
  lemma AfterDumpMisses(run: Run, d: Disk, n: nat)
    requires Lists(run, d) && Marker in d.staged && n < |run.walk| && run.walk[n] == Export
    ensures forall j :: n + 1 <= j < |run.walk| && run.walk[j] in RoutesOf(run, d) ==> RoutesOf(run, d)[run.walk[j]] != PendingImport
  {
    hide RoutesOf, Uncontested, Target;
    RoutesFacts(run, d);
  }

  lemma MovesAt(run: Run, staged: map<Path, Content>, to: map<Path, Path>, n: nat)
    requires n < |run.walk| && Listing(run.walk, staged) && run.walk[n] in to
    ensures Moves(run, staged, to, n) == Place(run, run.walk[n], to[run.walk[n]], staged[run.walk[n]]) + Moves(run, staged, to, n + 1)
  {
  }

  lemma DumpRoute(run: Run, d: Disk)
    requires Export in RoutesOf(run, d)
    ensures RoutesOf(run, d)[Export] == PendingImport
  {
  }

  /** The plan around the dump's move. */
  lemma PlanAtDump(run: Run, d: Disk) returns (n: nat, rest: seq<Op>)
    requires Lists(run, d) && Marker in d.staged && Export in RoutesOf(run, d)
    ensures n < |run.walk| && run.walk[n] == Export
    ensures ApplyPlan(run, d)
         == MovesTo(run, d.staged, RoutesOf(run, d), n) + (Place(run, Export, PendingImport, d.staged[Export]) + rest)
    ensures forall i :: 0 <= i < |rest| ==> Misses(rest[i], PendingImport)
  {
    hide Place, Uncontested, Clears, Drops, MovesTo, Moves, Target;
    var to := RoutesOf(run, d);
    n :| n < |run.walk| && run.walk[n] == Export;
    var after, tidy := Moves(run, d.staged, to, n + 1), Clears(run.sidecars) + Drops(run.sweep);
    MovesSplit(run, d.staged, to, n);
    MovesAt(run, d.staged, to, n);
    AfterDumpMisses(run, d, n);
    MovesMiss(run, d.staged, to, n + 1, PendingImport);
    TidyMisses(run);
    rest := after + tidy;
    assert to[Export] == PendingImport by { DumpRoute(run, d); }
    var before, place := MovesTo(run, d.staged, to, n), Place(run, Export, PendingImport, d.staged[Export]);
    assert Moves(run, d.staged, to, 0) == before + (place + after);
    Regroup(before, place + after, tidy);
    Regroup(place, after, tidy);
  }

  /** The dump is placed after any file that has its place, and nothing is after it. */
  lemma DumpWins(run: Run, d: Disk)
    requires Lists(run, d) && Marker in d.staged && Export in RoutesOf(run, d)
    ensures Get(Exec(d, ApplyPlan(run, d)).live, PendingImport) == Some(d.staged[Export])
  {
    hide Exec, Place, ApplyPlan, Lists;
    var to := RoutesOf(run, d);
    var n, rest := PlanAtDump(run, d);
    assert Listing(run.walk, d.staged) by { ListsAre(run, d); }
    var before, place := MovesTo(run, d.staged, to, n), Place(run, Export, PendingImport, d.staged[Export]);
    PlacedBefore(run, d, to, n);
    var d1 := Exec(d, before);
    assert Export in d1.staged && d1.staged[Export] == d.staged[Export];
    ExecPlace(run, d1, Export, PendingImport);
    ExecConcat(d, before, place + rest);
    ExecConcat(d1, place, rest);
    OpsMiss(Exec(d1, place), rest, PendingImport);
  }

  lemma ListsAre(run: Run, d: Disk)
    requires Lists(run, d)
    ensures Listing(run.walk, d.staged)
  {
  }

  lemma FinishedFile(run: Run, d: Disk, p: Path)
    requires Lists(run, d) && Marker in d.staged
    ensures Get(Exec(d, ApplyPlan(run, d)).live, p) == After(run.dbFile, run.driver, d, p)
  {
    var f := Exec(d, ApplyPlan(run, d));
    RoutesFacts(run, d);
    if p == PendingImport && Export in RoutesOf(run, d) {
      DumpWins(run, d);
    } else {
      var d1 := PlanFinishes(run, d);
      assert Get(f.live, p) != Get(d1.live, p) ==> p.Sidecar? && p !in f.live;
      if p.Sidecar? {
        if p in d1.live {
          SidecarsKnown(run, d, d1, p);
        }
      } else {
        MovedIsAfter(run, d, d1, p);
      }
    }
  }

  /** What a start leaves when nothing stops it: the staging directory is gone, and every live file
      is what `After` says. */
  lemma FinishedStart(run: Run, d: Disk, p: Path)
    requires Lists(run, d)
    ensures var f := Exec(d, ApplyPlan(run, d));
            f.staged == map[] && Get(f.live, p) == After(run.dbFile, run.driver, d, p)
  {
    if Marker !in d.staged {
      ExecDrops(d, run.sweep);
      assert forall p :: p in Exec(d, ApplyPlan(run, d)).staged ==> p in run.sweep;
    } else {
      var d1 := PlanFinishes(run, d);
      FinishedFile(run, d, p);
    }
  }

  /** One start that stopped after `k` operations. */
  datatype Attempt = Attempt(run: Run, k: nat)

  /** The disk after starts that each stopped somewhere, all configured alike. */
  ghost predicate Leads(dbFile: Option<Path>, driver: Content -> string, d: Disk, attempts: seq<Attempt>, d': Disk)
    decreases |attempts|
  {
    if attempts == [] then d' == d
    else
      var a := attempts[0];
      && a.run.dbFile == dbFile && a.run.driver == driver
      && Lists(a.run, d) && a.k <= |ApplyPlan(a.run, d)|
      && Leads(dbFile, driver, Exec(d, ApplyPlan(a.run, d)[..a.k]), attempts[1..], d')
  }

  lemma {:induction false} CrashesKeepOrdinary(dbFile: Option<Path>, driver: Content -> string, d: Disk, attempts: seq<Attempt>, d': Disk, p: Path)
    requires Leads(dbFile, driver, d, attempts, d') && Ordinary(p)
    ensures After(dbFile, driver, d', p) == After(dbFile, driver, d, p)
    decreases |attempts|
  {
    if attempts != [] {
      var a := attempts[0];
      CrashKeepsOrdinary(a.run, d, a.k, p);
      CrashesKeepOrdinary(dbFile, driver, Exec(d, ApplyPlan(a.run, d)[..a.k]), attempts[1..], d', p);
    }
  }

  /** Any number of starts that died anywhere, then one that did not: every ordinary file is what one
      uninterrupted start would have left. */
  lemma CrashesThenFinish(run: Run, other: Run, d: Disk, attempts: seq<Attempt>, d': Disk, p: Path)
    requires Lists(run, d) && Lists(other, d') && Leads(run.dbFile, run.driver, d, attempts, d') && Ordinary(p)
    requires other.dbFile == run.dbFile && other.driver == run.driver
    ensures Get(Exec(d', ApplyPlan(other, d')).live, p) == Get(Exec(d, ApplyPlan(run, d)).live, p)
    ensures Exec(d', ApplyPlan(other, d')).staged == map[]
  {
    CrashesKeepOrdinary(run.dbFile, run.driver, d, attempts, d', p);
    FinishedStart(run, d, p);
    FinishedStart(other, d', p);
  }

  // ---- which engine the archive is for: exactly when a crash cannot change the answer ----

  predicate ListedLast(db: Path, walk: seq<Path>) {
    forall j, k :: 0 <= j < k < |walk| && walk[j] == db ==> !walk[k].Db?
  }

  /** A file in the dump's own place is the dump; and the database file for this engine is not there, or is
      what is put back, with no dump but one in its own place already and no other database file listed after
      it, or is not what is put back, and there is no database file of any other name. */
  ghost predicate Steady(dbFile: Option<Path>, driver: Content -> string, staged: map<Path, Content>, walk: seq<Path>) {
    && DumpAgrees(staged)
    && (|| dbFile.None? || dbFile.value !in staged
        || (ByFile(dbFile, driver, staged) && (Export in staged ==> PendingImport in staged) && ListedLast(dbFile.value, walk))
        || (!ByFile(dbFile, driver, staged) && forall p :: p in staged ==> !p.Db?))
  }

  /** The same of a disk part way: the dump's place may hold the dump already. */
  ghost predicate SteadyDisk(dbFile: Option<Path>, driver: Content -> string, d: Disk, walk: seq<Path>) {
    && DumpAgrees(d.staged)
    && (|| dbFile.None? || dbFile.value !in d.staged
        || (ByFile(dbFile, driver, d.staged) && DumpThere(d) && ListedLast(dbFile.value, walk))
        || (!ByFile(dbFile, driver, d.staged) && forall p :: p in d.staged ==> !p.Db?))
  }

  predicate DumpThere(d: Disk) {
    Export in d.staged ==> PendingImport in d.staged || Get(d.live, PendingImport) == Some(d.staged[Export])
  }

  /** The panel's database is an ordinary file, whatever its name ends in. */
  predicate DataFile(dbFile: Option<Path>) {
    dbFile.Some? ==> dbFile.value.Db? || dbFile.value.File?
  }

  /** Wherever a start over this staging directory stops, the next one ends with the same files. */
  ghost predicate Harmless(dbFile: Option<Path>, driver: Content -> string, staged: map<Path, Content>, walk: seq<Path>) {
    forall live, run: Run, k: nat, p ::
      (run.dbFile == dbFile && run.driver == driver && run.walk == walk
       && Lists(run, Disk(live, staged)) && k <= |ApplyPlan(run, Disk(live, staged))|) ==>
        After(dbFile, driver, Exec(Disk(live, staged), ApplyPlan(run, Disk(live, staged))[..k]), p)
          == After(dbFile, driver, Disk(live, staged), p)
  }

  /** What is known part way through about one file: what it holds, and whether it is still staged. */
  ghost predicate FileFacts(live: map<Path, Content>, staged: map<Path, Content>, byFile: bool,
                            d: Disk, placed: set<Path>, busy: set<Path>, p: Path)
  {
    && (p in d.staged ==> p in staged && d.staged[p] == staged[p])
    && (p in staged && p !in d.staged ==> p in placed && Target(p, byFile).Some?)
    && (p in placed && p in staged && Target(p, byFile) == Some(p) && p != PendingImport ==> Get(d.live, p) == Some(staged[p]))
    && (p != PendingImport && (Target(p, byFile) != Some(p) || p !in staged || p !in placed + busy) ==>
          Get(d.live, p) == Get(live, p))
  }

  lemma SoleAt(staged: map<Path, Content>, byFile: bool, busy: set<Path>, p: Path)
    requires p in staged && Target(p, byFile) == Some(p) && p != PendingImport
    ensures Uncontested(Routes(staged, byFile), staged, busy, p) && Routes(staged, byFile)[p] == p
  {
  }

  lemma PlaceUncontested(staged: map<Path, Content>, byFile: bool, busy: set<Path>)
    requires PendingImport in staged && (byFile || Export !in staged)
    ensures Uncontested(Routes(staged, byFile), staged, busy, PendingImport) && Routes(staged, byFile)[PendingImport] == PendingImport
  {
  }

  lemma RouteIs(staged: map<Path, Content>, byFile: bool, q: Path)
    ensures q in Routes(staged, byFile) <==> q in staged && Target(q, byFile).Some?
    ensures q in Routes(staged, byFile) ==> Some(Routes(staged, byFile)[q]) == Target(q, byFile)
  {
  }

  lemma MidwayAt(live: map<Path, Content>, staged: map<Path, Content>, byFile: bool,
                 d: Disk, placed: set<Path>, busy: set<Path>, p: Path)
    requires Midway(live, staged, Routes(staged, byFile), d, placed, busy)
    ensures FileFacts(live, staged, byFile, d, placed, busy, p)
  {
    hide Routes, Uncontested;
    var to := Routes(staged, byFile);
    RouteIs(staged, byFile, p);
    if p in staged && Target(p, byFile) == Some(p) && p != PendingImport {
      SoleAt(staged, byFile, busy, p);
    }
    if p != PendingImport && Get(d.live, p) != Get(live, p) {
      var q :| q in placed + busy && q in to && to[q] == p;
      RouteIs(staged, byFile, q);
      assert q == p;
    }
  }

  /** If the database file is in place already, every other one, listed before it, is too. */
  lemma EarlierPlaced(walk: seq<Path>, staged: map<Path, Content>, placed: set<Path>, i: nat, db: Path, p: Path)
    requires Listing(walk, staged) && i <= |walk| && placed == set j | 0 <= j < i :: walk[j]
    requires ListedLast(db, walk) && db in placed && p.Db? && p in staged
    ensures p in placed
  {
    var at: nat :| at < i && walk[at] == db;
    var j: nat :| j < |walk| && walk[j] == p;
    assert j <= at;
  }

  /** The place the dump is left, and where the dump itself is. */
  ghost predicate DumpFacts(live: map<Path, Content>, staged: map<Path, Content>, byFile: bool, d: Disk) {
    && (Export in staged && Export !in d.staged ==> !byFile)
    && (Export in staged && Export !in d.staged && PendingImport !in d.staged ==> Get(d.live, PendingImport) == Some(staged[Export]))
    && ((byFile || Export !in staged) && PendingImport !in staged ==> Get(d.live, PendingImport) == Get(live, PendingImport))
    && ((byFile || Export !in staged) && PendingImport in staged && PendingImport !in d.staged ==>
          Get(d.live, PendingImport) == Some(staged[PendingImport]))
    && (PendingImport in d.staged ==> PendingImport in staged && d.staged[PendingImport] == staged[PendingImport])
  }

  lemma DumpMidway(live: map<Path, Content>, staged: map<Path, Content>, byFile: bool,
                   d: Disk, placed: set<Path>, busy: set<Path>)
    requires DumpAgrees(staged) && placed !! busy && Midway(live, staged, Routes(staged, byFile), d, placed, busy)
    ensures DumpFacts(live, staged, byFile, d)
  {
    hide Routes, Uncontested;
    var to := Routes(staged, byFile);
    RouteIs(staged, byFile, Export);
    RouteIs(staged, byFile, PendingImport);
    if Export in staged && Export !in d.staged && PendingImport !in d.staged {
      assert PendingImport !in busy || PendingImport !in staged;
      DumpPlaced(live, staged, d, placed, busy);
    }
    if PendingImport in staged && PendingImport !in d.staged && (byFile || Export !in staged) {
      PlaceUncontested(staged, byFile, busy);
    }
    if Get(d.live, PendingImport) != Get(live, PendingImport) {
      var q :| q in placed + busy && q in to && to[q] == PendingImport;
      RouteIs(staged, byFile, q);
      assert q == Export || q == PendingImport;
    }
  }

  lemma DumpPlaced(live: map<Path, Content>, staged: map<Path, Content>, d: Disk, placed: set<Path>, busy: set<Path>)
    requires DumpAgrees(staged) && Midway(live, staged, Routes(staged, false), d, placed, busy)
    requires Export in staged && Export in placed && (PendingImport in staged ==> PendingImport !in busy)
    ensures Get(d.live, PendingImport) == Some(staged[Export])
  {
    var to := Routes(staged, false);
    assert to[Export] == PendingImport;
    assert Uncontested(to, staged, busy, Export);
  }

  lemma SteadyFile(run: Run, d0: Disk, d: Disk, placed: set<Path>, busy: set<Path>, p: Path)
    requires Marker in d0.staged && SteadyDisk(run.dbFile, run.driver, d0, run.walk) && DataFile(run.dbFile)
    requires var byFile := ByFile(run.dbFile, run.driver, d0.staged);
             && FileFacts(d0.live, d0.staged, byFile, d, placed, busy, p)
             && FileFacts(d0.live, d0.staged, byFile, d, placed, busy, Marker)
             && FileFacts(d0.live, d0.staged, byFile, d, placed, busy, Export)
             && DumpFacts(d0.live, d0.staged, byFile, d)
             && (run.dbFile.Some? ==>
                   && FileFacts(d0.live, d0.staged, byFile, d, placed, busy, run.dbFile.value)
                   && (byFile && run.dbFile.value !in d.staged && p.Db? && p in d0.staged ==> p in placed))
    ensures After(run.dbFile, run.driver, d, p) == After(run.dbFile, run.driver, d0, p)
  {
    hide ListedLast;
  }

  lemma SteadyMidway(run: Run, d0: Disk, d: Disk, i: nat, busy: set<Path>, p: Path)
    requires Lists(run, d0) && Marker in d0.staged && i <= |run.walk| && Before(run, i) !! busy
    requires SteadyDisk(run.dbFile, run.driver, d0, run.walk) && DataFile(run.dbFile)
    requires Midway(d0.live, d0.staged, RoutesOf(run, d0), d, Before(run, i), busy)
    ensures After(run.dbFile, run.driver, d, p) == After(run.dbFile, run.driver, d0, p)
  {
    hide Midway, Routes, ListedLast, After;
    var byFile, placed := ByFile(run.dbFile, run.driver, d0.staged), Before(run, i);
    MidwayAt(d0.live, d0.staged, byFile, d, placed, busy, p);
    MidwayAt(d0.live, d0.staged, byFile, d, placed, busy, Marker);
    MidwayAt(d0.live, d0.staged, byFile, d, placed, busy, Export);
    DumpMidway(d0.live, d0.staged, byFile, d, placed, busy);
    if run.dbFile.Some? {
      var db := run.dbFile.value;
      MidwayAt(d0.live, d0.staged, byFile, d, placed, busy, db);
      if byFile && db !in d.staged && p.Db? && p in d0.staged {
        EarlierPlaced(run.walk, d0.staged, placed, i, db, p);
      }
    }
    SteadyFile(run, d0, d, placed, busy, p);
  }

  lemma SteadyFinishing(run: Run, d0: Disk, d1: Disk, d: Disk, p: Path)
    requires Lists(run, d0) && Marker in d0.staged && Finishing(run, d0, d1, d) && DataFile(run.dbFile)
    requires SteadyDisk(run.dbFile, run.driver, d0, run.walk)
    ensures After(run.dbFile, run.driver, d, p) == After(run.dbFile, run.driver, d0, p)
  {
    hide RoutesOf, Routes, Uncontested, Target, Before, ListedLast;
    RoutesFacts(run, d0);
    if p.Sidecar? {
      if Marker !in d.staged {
        assert p in d1.live ==> p in d0.live || p in d0.staged;
      }
    } else {
      MovedIsAfter(run, d0, d1, p);
      assert forall q :: q in d.staged ==> q in d0.staged && d.staged[q] == d0.staged[q];
      SteadyTidied(run, d0, d, p);
    }
  }

  /** Once all is moved, what is left staged tells the next start nothing else. */
  lemma SteadyTidied(run: Run, d0: Disk, d: Disk, p: Path)
    requires Marker in d0.staged && DataFile(run.dbFile) && SteadyDisk(run.dbFile, run.driver, d0, run.walk)
    requires forall q :: q in d.staged ==> q in d0.staged && d.staged[q] == d0.staged[q]
    requires !p.Sidecar? && Get(d.live, p) == After(run.dbFile, run.driver, d0, p)
    ensures After(run.dbFile, run.driver, d, p) == After(run.dbFile, run.driver, d0, p)
  {
    hide ListedLast;
  }

  lemma BeforeMisses(run: Run, i: nat, d: Disk, busy: set<Path>)
    requires Listing(run.walk, d.staged) && i <= |run.walk|
    requires (i < |run.walk| ==> busy <= {run.walk[i]}) && (i == |run.walk| ==> busy == {})
    ensures Before(run, i) !! busy
  {
  }

  lemma SteadyCrash(run: Run, d0: Disk, k: nat, p: Path)
    requires Lists(run, d0) && k <= |ApplyPlan(run, d0)|
    requires SteadyDisk(run.dbFile, run.driver, d0, run.walk) && DataFile(run.dbFile)
    ensures After(run.dbFile, run.driver, Exec(d0, ApplyPlan(run, d0)[..k]), p) == After(run.dbFile, run.driver, d0, p)
  {
    var d := Exec(d0, ApplyPlan(run, d0)[..k]);
    if Marker !in d0.staged {
      assert ApplyPlan(run, d0)[..k] == Drops(run.sweep[..k]);
      ExecDrops(d0, run.sweep[..k]);
    } else {
      var i, busy, d1 := PlanPrefix(run, d0, k);
      if Finishing(run, d0, d1, d) {
        SteadyFinishing(run, d0, d1, d, p);
      } else {
        BeforeMisses(run, i, d0, busy);
        SteadyMidway(run, d0, d, i, busy, p);
      }
    }
  }

  // ---- and over any number of them ----

  /** Files are listed in one fixed order. */
  ghost predicate Ranked(rank: Path -> int, walk: seq<Path>) {
    forall j, k :: 0 <= j < k < |walk| ==> rank(walk[j]) < rank(walk[k])
  }

  ghost predicate SteadyRank(dbFile: Option<Path>, driver: Content -> string, d: Disk, rank: Path -> int) {
    && DumpAgrees(d.staged)
    && (|| dbFile.None? || dbFile.value !in d.staged
        || (ByFile(dbFile, driver, d.staged) && DumpThere(d) && forall q :: q in d.staged && q.Db? ==> rank(q) <= rank(dbFile.value))
        || (!ByFile(dbFile, driver, d.staged) && forall p :: p in d.staged ==> !p.Db?))
  }

  lemma RankIsOrder(db: Path, d: Disk, walk: seq<Path>, rank: Path -> int)
    requires Listing(walk, d.staged) && Ranked(rank, walk) && db in d.staged
    ensures ListedLast(db, walk) <==> forall q :: q in d.staged && q.Db? ==> rank(q) <= rank(db)
  {
    var j :| 0 <= j < |walk| && walk[j] == db;
    if ListedLast(db, walk) {
      forall q | q in d.staged && q.Db? ensures rank(q) <= rank(db) {
        var k :| 0 <= k < |walk| && walk[k] == q;
        assert k <= j;
      }
    }
    if forall q :: q in d.staged && q.Db? ==> rank(q) <= rank(db) {
      forall i, k | 0 <= i < k < |walk| && walk[i] == db ensures !walk[k].Db? {
        assert walk[k] in d.staged && rank(walk[i]) < rank(walk[k]);
      }
    }
  }

  lemma SteadyByRank(dbFile: Option<Path>, driver: Content -> string, d: Disk, walk: seq<Path>, rank: Path -> int)
    requires Listing(walk, d.staged) && Ranked(rank, walk)
    ensures SteadyDisk(dbFile, driver, d, walk) <==> SteadyRank(dbFile, driver, d, rank)
  {
    hide Listing, Ranked, ListedLast;
    if dbFile.Some? && dbFile.value in d.staged {
      RankIsOrder(dbFile.value, d, walk, rank);
    }
  }

  /** What a crash leaves staged was staged before, and the dump is where it was or is in its place. */
  ghost predicate Shrinks(dbFile: Option<Path>, driver: Content -> string, d0: Disk, d: Disk) {
    && (forall q :: q in d.staged ==> q in d0.staged && d.staged[q] == d0.staged[q])
    && (ByFile(dbFile, driver, d0.staged) && Export in d.staged && PendingImport !in d.staged ==>
          Get(d.live, PendingImport) == if PendingImport in d0.staged then Some(d0.staged[PendingImport]) else Get(d0.live, PendingImport))
  }

  lemma CrashShrinks(run: Run, d0: Disk, k: nat)
    requires Lists(run, d0) && k <= |ApplyPlan(run, d0)| && Marker in d0.staged && DumpAgrees(d0.staged)
    ensures Shrinks(run.dbFile, run.driver, d0, Exec(d0, ApplyPlan(run, d0)[..k]))
  {
    hide ApplyPlan, Exec, Routes, Uncontested, Lists;
    var byFile := ByFile(run.dbFile, run.driver, d0.staged);
    var d := Exec(d0, ApplyPlan(run, d0)[..k]);
    ListsAre(run, d0);
    var i, busy, d1 := PlanPrefix(run, d0, k);
    if Finishing(run, d0, d1, d) {
      DumpMidway(d0.live, d0.staged, byFile, d1, Before(run, |run.walk|), {});
      RoutesFacts(run, d0);
      MovedIsAfter(run, d0, d1, PendingImport);
    } else {
      BeforeMisses(run, i, d0, busy);
      DumpMidway(d0.live, d0.staged, byFile, d, Before(run, i), busy);
    }
  }

  lemma SteadyPersists(dbFile: Option<Path>, driver: Content -> string, d0: Disk, d: Disk, rank: Path -> int)
    requires SteadyRank(dbFile, driver, d0, rank) && Shrinks(dbFile, driver, d0, d)
    ensures SteadyRank(dbFile, driver, d, rank)
  {
  }

  lemma {:induction false} SteadyLeads(dbFile: Option<Path>, driver: Content -> string, rank: Path -> int,
                                       d: Disk, attempts: seq<Attempt>, d': Disk, p: Path)
    requires Leads(dbFile, driver, d, attempts, d') && forall a :: a in attempts ==> Ranked(rank, a.run.walk)
    requires DataFile(dbFile) && (Marker !in d.staged || SteadyRank(dbFile, driver, d, rank))
    ensures After(dbFile, driver, d', p) == After(dbFile, driver, d, p)
    decreases |attempts|
  {
    hide ApplyPlan, Exec, After, SteadyRank, SteadyDisk, Ranked, Shrinks, DataFile;
    if attempts != [] {
      var a, rest := attempts[0], attempts[1..];
      assert forall b :: b in rest ==> b in attempts;
      var d1 := Exec(d, ApplyPlan(a.run, d)[..a.k]);
      OneCrash(dbFile, driver, rank, d, a, p);
      SteadyLeads(dbFile, driver, rank, d1, rest, d', p);
    }
  }

  lemma OneCrash(dbFile: Option<Path>, driver: Content -> string, rank: Path -> int, d: Disk, a: Attempt, p: Path)
    requires a.run.dbFile == dbFile && a.run.driver == driver && Lists(a.run, d) && a.k <= |ApplyPlan(a.run, d)|
    requires Ranked(rank, a.run.walk) && DataFile(dbFile) && (Marker !in d.staged || SteadyRank(dbFile, driver, d, rank))
    ensures var d1 := Exec(d, ApplyPlan(a.run, d)[..a.k]);
            && After(dbFile, driver, d1, p) == After(dbFile, driver, d, p)
            && (Marker !in d1.staged || SteadyRank(dbFile, driver, d1, rank))
  {
    var d1 := Exec(d, ApplyPlan(a.run, d)[..a.k]);
    if Marker !in d.staged {
      assert ApplyPlan(a.run, d)[..a.k] == Drops(a.run.sweep[..a.k]);
      ExecDrops(d, a.run.sweep[..a.k]);
    } else {
      hide ApplyPlan, Exec, After, SteadyRank, SteadyDisk, Ranked, Shrinks;
      SteadyByRank(dbFile, driver, d, a.run.walk, rank);
      SteadyCrash(a.run, d, a.k, p);
      CrashShrinks(a.run, d, a.k) by { RankAgrees(dbFile, driver, d, rank); }
      SteadyPersists(dbFile, driver, d, d1, rank);
    }
  }

  lemma RankAgrees(dbFile: Option<Path>, driver: Content -> string, d: Disk, rank: Path -> int)
    requires SteadyRank(dbFile, driver, d, rank)
    ensures DumpAgrees(d.staged)
  {
  }

  /** Over a steady archive, with files listed in one fixed order: any number of starts that died anywhere,
      then one that did not, leave every file, database files included, as one uninterrupted start would. */
  lemma SteadyCrashesThenFinish(run: Run, other: Run, d: Disk, attempts: seq<Attempt>, d': Disk, rank: Path -> int, p: Path)
    requires Lists(run, d) && Lists(other, d') && Leads(run.dbFile, run.driver, d, attempts, d')
    requires other.dbFile == run.dbFile && other.driver == run.driver && DataFile(run.dbFile)
    requires Ranked(rank, run.walk) && forall a :: a in attempts ==> Ranked(rank, a.run.walk)
    requires Steady(run.dbFile, run.driver, d.staged, run.walk)
    ensures Get(Exec(d', ApplyPlan(other, d')).live, p) == Get(Exec(d, ApplyPlan(run, d)).live, p)
  {
    hide ApplyPlan, Exec, After, SteadyRank, Ranked;
    SteadyByRank(run.dbFile, run.driver, d, run.walk, rank);
    SteadyLeads(run.dbFile, run.driver, rank, d, attempts, d', p);
    FinishedStart(run, d, p);
    FinishedStart(other, d', p);
  }

  // ---- this server's own addresses, kept beside the archive ----

  /** The next start is still to put this server's addresses back. */
  predicate KeepsStash(d: Disk) {
    Marker in d.staged && Stash in d.staged
  }

  /** A start that dies loses this server's addresses exactly when, of the staging directory, the marker or
      the addresses were removed already; when it ends they are gone from the disk, handed to its caller. */
  lemma StashLostExactlyWhen(run: Run, d: Disk, k: nat)
    requires Lists(run, d) && KeepsStash(d) && k <= |ApplyPlan(run, d)|
    ensures var n := |ApplyPlan(run, d)| - |run.sweep|;
            n >= 0 && (KeepsStash(Exec(d, ApplyPlan(run, d)[..k])) <==> k <= n || (Marker !in run.sweep[..k - n] && Stash !in run.sweep[..k - n]))
    ensures k == |ApplyPlan(run, d)| ==> !KeepsStash(Exec(d, ApplyPlan(run, d)[..k]))
  {
    hide Exec, Routes, Uncontested, Lists, Place;
    ListsAre(run, d);
    SweepAll(run, d);
    var to := RoutesOf(run, d);
    var moves, clears, drops := Moves(run, d.staged, to, 0), Clears(run.sidecars), Drops(run.sweep);
    var n := |moves| + |clears|;
    assert ApplyPlan(run, d) == moves + (clears + drops) == moves + clears + drops;
    if k <= |moves| {
      StashStaysMoving(run, d, k);
      ExecPrefix(d, moves, clears + drops, k);
    } else {
      StashStaysMoving(run, d, |moves|);
      assert moves[..|moves|] == moves;
      var d1 := Exec(d, moves);
      ExecPrefix(d, moves, clears + drops, k);
      TidyKeepsStash(run, d1, k - |moves|);
    }
  }

  lemma SweepAll(run: Run, d: Disk)
    requires Lists(run, d)
    ensures forall p :: p in d.staged ==> p in run.sweep
  {
  }

  lemma StashStaysMoving(run: Run, d: Disk, k: nat)
    requires Lists(run, d) && KeepsStash(d) && k <= |Moves(run, d.staged, RoutesOf(run, d), 0)|
    ensures KeepsStash(Exec(d, Moves(run, d.staged, RoutesOf(run, d), 0)[..k]))
  {
    hide Exec, Moves, Uncontested;
    var to := RoutesOf(run, d);
    assert Before(run, 0) == {};
    NothingMoved(d.live, d.staged, to, d);
    var i, busy := MovesStayMidway(run, d.live, d.staged, to, d, 0, k);
    assert Marker !in to && Stash !in to;
  }

  lemma TidyKeepsStash(run: Run, d1: Disk, m: nat)
    requires KeepsStash(d1) && m <= |Clears(run.sidecars) + Drops(run.sweep)|
    ensures var n := |run.sidecars|;
            KeepsStash(Exec(d1, (Clears(run.sidecars) + Drops(run.sweep))[..m])) <==>
            m <= n || (Marker !in run.sweep[..m - n] && Stash !in run.sweep[..m - n])
  {
    var clears, drops := Clears(run.sidecars), Drops(run.sweep);
    ExecPrefix(d1, clears, drops, m);
    if m <= |clears| {
      assert clears[..m] == Clears(run.sidecars[..m]);
      ExecClears(d1, run.sidecars[..m]);
    } else {
      var n := m - |clears|;
      assert drops[..n] == Drops(run.sweep[..n]);
      ExecClears(d1, run.sidecars);
      ExecDrops(Exec(d1, clears), run.sweep[..n]);
    }
  }

  // ---- where the condition fails ----

  /** Entry `n` is one whose move changes the answer, and `p` a file the answer decides. */
  ghost predicate Harmful(run: Run, staged: map<Path, Content>, n: nat, p: Path)
    requires n < |run.walk|
  {
    var byFile := ByFile(run.dbFile, run.driver, staged);
    || (Export in staged && !byFile && !DumpAgrees(staged) && run.walk[n] == Export && p == PendingImport)
    || (Export in staged && !byFile && run.dbFile.Some? && run.dbFile.value in staged && p.Db? && p in staged && run.walk[n] == Export)
    || (byFile && Export in staged && (PendingImport in staged ==> !DumpAgrees(staged)) && run.walk[n] == run.dbFile.value && p == PendingImport)
    || (byFile && run.walk[n] == run.dbFile.value && p.Db? && exists m :: n < m < |run.walk| && run.walk[m] == p)
  }

  lemma HarmfulEntry(run: Run, staged: map<Path, Content>) returns (n: nat, p: Path)
    requires Listing(run.walk, staged) && !Steady(run.dbFile, run.driver, staged, run.walk) && DataFile(run.dbFile)
    ensures n < |run.walk| && Harmful(run, staged, n, p)
    ensures run.walk[n] in Routes(staged, ByFile(run.dbFile, run.driver, staged))
  {
    var byFile := ByFile(run.dbFile, run.driver, staged);
    if byFile {
      n :| n < |run.walk| && run.walk[n] == run.dbFile.value;
      if Export in staged && (PendingImport in staged ==> !DumpAgrees(staged)) {
        p := PendingImport;
      } else {
        var j: nat, m: nat :| j < m < |run.walk| && run.walk[j] == run.dbFile.value && run.walk[m].Db?;
        assert j == n;
        p := run.walk[m];
      }
    } else {
      assert Export in staged;
      n :| n < |run.walk| && run.walk[n] == Export;
      if !DumpAgrees(staged) {
        p := PendingImport;
      } else {
        p :| p in staged && p.Db?;
      }
    }
  }

  lemma NotYetPlaced(run: Run, d0: Disk, to: map<Path, Path>, n: nat)
    requires n < |run.walk| && Listing(run.walk, d0.staged)
    ensures var rel, d := run.walk[n], Exec(d0, MovesTo(run, d0.staged, to, n));
            rel in d.staged && rel in d0.staged && d.staged[rel] == d0.staged[rel]
  {
    hide Exec;
    PlacedBefore(run, d0, to, n);
  }

  lemma {:induction false} StaysStaged(run: Run, d0: Disk, to: map<Path, Path>, n: nat, q: Path)
    requires n <= |run.walk| && Listing(run.walk, d0.staged) && q in d0.staged && !run.renames(q)
    ensures q in Exec(d0, MovesTo(run, d0.staged, to, n)).staged
  {
    hide Place, Midway, Before;
    if n > 0 {
      var rel := run.walk[n - 1];
      var before := MovesTo(run, d0.staged, to, n - 1);
      StaysStaged(run, d0, to, n - 1, q);
      if rel in to {
        var d := Exec(d0, before);
        assert rel in d.staged && d.staged[rel] == d0.staged[rel] by {
          NotYetPlaced(run, d0, to, n - 1);
        }
        ExecConcat(d0, before, Place(run, rel, to[rel], d0.staged[rel]));
        ExecPlace(run, d, rel, to[rel]);
      } else {
        assert before + [] == before;
      }
    }
  }

  lemma PlanStarts(run: Run, d0: Disk, n: nat)
    requires Lists(run, d0) && Marker in d0.staged && n <= |run.walk|
    ensures var moves := MovesTo(run, d0.staged, RoutesOf(run, d0), n);
            |moves| <= |ApplyPlan(run, d0)| && ApplyPlan(run, d0)[..|moves|] == moves
  {
    MovesSplit(run, d0.staged, RoutesOf(run, d0), n);
  }

  /** The disk a start leaves when it dies just after entry `n`, the one it could rename, is in place. */
  lemma DiesAfter(run: Run, d0: Disk, n: nat) returns (k: nat)
    requires Lists(run, d0) && Marker in d0.staged && n < |run.walk|
    requires run.walk[n] in RoutesOf(run, d0) && forall q :: run.renames(q) <==> q == run.walk[n]
    ensures k <= |ApplyPlan(run, d0)|
    ensures var d := Exec(d0, ApplyPlan(run, d0)[..k]);
            && Midway(d0.live, d0.staged, RoutesOf(run, d0), d, Before(run, n + 1), {}) && run.walk[n] !in d.staged
            && (forall q :: q in d0.staged && q != run.walk[n] ==> q in d.staged)
  {
    var to := RoutesOf(run, d0);
    k := |MovesTo(run, d0.staged, to, n + 1)|;
    PlanStarts(run, d0, n + 1);
    PlacedBefore(run, d0, to, n + 1);
    RenamedIsGone(run, d0, to, n);
    forall q | q in d0.staged && q != run.walk[n] ensures q in Exec(d0, MovesTo(run, d0.staged, to, n + 1)).staged {
      StaysStaged(run, d0, to, n + 1, q);
    }
  }

  /** One crash changes what file `p` ends as. */
  lemma HarmShows(run: Run, d0: Disk, d: Disk, n: nat, p: Path)
    requires Lists(run, d0) && d0.live == map[] && Marker in d0.staged && DataFile(run.dbFile)
    requires n < |run.walk| && Harmful(run, d0.staged, n, p)
    requires Midway(d0.live, d0.staged, RoutesOf(run, d0), d, Before(run, n + 1), {}) && run.walk[n] !in d.staged
    requires forall q :: q in d0.staged && q != run.walk[n] ==> q in d.staged
    ensures After(run.dbFile, run.driver, d, p) != After(run.dbFile, run.driver, d0, p)
  {
    hide Routes, Midway, Uncontested;
    var byFile, placed := ByFile(run.dbFile, run.driver, d0.staged), Before(run, n + 1);
    MidwayAt(d0.live, d0.staged, byFile, d, placed, {}, p);
    MidwayAt(d0.live, d0.staged, byFile, d, placed, {}, Marker);
    MidwayAt(d0.live, d0.staged, byFile, d, placed, {}, Export);
    MidwayAt(d0.live, d0.staged, byFile, d, placed, {}, PendingImport);
    if byFile && p.Db? {
      assert p !in placed;
    }
  }

  lemma HarmfulCrash(dbFile: Option<Path>, driver: Content -> string, staged: map<Path, Content>, walk: seq<Path>)
    returns (run: Run, k: nat, p: Path)
    requires Marker in staged && Listing(walk, staged) && DumpLast(walk) && DataFile(dbFile) && !Steady(dbFile, driver, staged, walk)
    ensures run.dbFile == dbFile && run.driver == driver && run.walk == walk && Lists(run, Disk(map[], staged))
    ensures k <= |ApplyPlan(run, Disk(map[], staged))|
    ensures After(dbFile, driver, Exec(Disk(map[], staged), ApplyPlan(run, Disk(map[], staged))[..k]), p)
         != After(dbFile, driver, Disk(map[], staged), p)
  {
    hide After, Exec, ApplyPlan, Steady, Midway, Routes;
    var d0 := Disk(map[], staged);
    run := Run(dbFile, driver, walk, SidecarsIn(walk), walk, _ => true, _ => []);
    var n;
    n, p := HarmfulEntry(run, staged);
    var only := walk[n];
    run := run.(renames := q => q == only);
    k := DiesAfter(run, d0, n);
    HarmShows(run, d0, Exec(d0, ApplyPlan(run, d0)[..k]), n, p);
  }

  function SidecarsIn(names: seq<Path>): (r: seq<Path>)
    ensures forall p :: p in r <==> p in names && p.Sidecar?
  {
    if names == [] then [] else (if names[0].Sidecar? then [names[0]] else []) + SidecarsIn(names[1..])
  }

  /** Where the condition fails, an empty data directory and one crash show it. */
  lemma UnsteadyHarms(dbFile: Option<Path>, driver: Content -> string, staged: map<Path, Content>, walk: seq<Path>)
    requires Marker in staged && Listing(walk, staged) && DumpLast(walk) && DataFile(dbFile)
    requires !Steady(dbFile, driver, staged, walk)
    ensures !Harmless(dbFile, driver, staged, walk)
  {
    hide After, Exec, ApplyPlan, Steady;
    var run, k, p := HarmfulCrash(dbFile, driver, staged, walk);
    assert After(dbFile, driver, Exec(Disk(map[], staged), ApplyPlan(run, Disk(map[], staged))[..k]), p)
        != After(dbFile, driver, Disk(map[], staged), p);
  }

  /** Interrupting a start is harmless to every file, database files and the dump's place included,
      exactly when the staged archive is `Steady`. */
  lemma HarmlessExactlyWhenSteady(dbFile: Option<Path>, driver: Content -> string, staged: map<Path, Content>, walk: seq<Path>)
    requires Marker in staged && Listing(walk, staged) && DumpLast(walk) && DataFile(dbFile)
    ensures Harmless(dbFile, driver, staged, walk) <==> Steady(dbFile, driver, staged, walk)
  {
    if Steady(dbFile, driver, staged, walk) {
      forall live, run: Run, k: nat, p |
        run.dbFile == dbFile && run.driver == driver && run.walk == walk
        && Lists(run, Disk(live, staged)) && k <= |ApplyPlan(run, Disk(live, staged))|
        ensures After(dbFile, driver, Exec(Disk(live, staged), ApplyPlan(run, Disk(live, staged))[..k]), p)
             == After(dbFile, driver, Disk(live, staged), p)
      {
        SteadyCrash(run, Disk(live, staged), k, p);
      }
    } else {
      UnsteadyHarms(dbFile, driver, staged, walk);
    }
  }
}
