/**
  The two halves of a restore as they run: `Restore` unpacks an archive into the
  staging directory and marks it last; `ApplyPending`, at the next start, puts it
  in place. Each records every operation it makes on the disk, so that a crash at
  any point is a prefix of the record.
 */
module Staging {
  import opened Prelude
  import opened DataDirectory
  import opened Restore

  /** Where staging an archive goes wrong, and whether the file it was at had been made. */
  datatype Ending =
    | Whole                          // nowhere
    | AtMember(at: nat, begun: bool) // unpacking breaks at a member
    | AtStash(begun: bool)           // this server's addresses cannot be written
    | AtMarker(begun: bool)          // nor the marker

  /** An archive: its regular members in order, and how staging it ends. */
  datatype Archive = Archive(name: Content, members: seq<(Path, Content)>, ending: Ending)

  predicate Breaks(a: Archive) {
    a.ending.AtMember? && a.ending.at < |a.members|
  }

  predicate Unpacks(a: Archive) {
    !Breaks(a) && a.members != []
  }

  /** It unpacks, and this server's addresses and the marker are written. */
  predicate Stages(a: Archive, keep: Option<Content>) {
    Unpacks(a) && !a.ending.AtMarker? && !(keep.Some? && a.ending.AtStash?)
  }

  /** The members that are unpacked whole. */
  function Finished(a: Archive): seq<(Path, Content)> {
    if Breaks(a) then a.members[..a.ending.at] else a.members
  }

  /** The members a file is made for: those, and the one unpacking broke at once its file was there. */
  function Begun(a: Archive): seq<(Path, Content)> {
    if Breaks(a) then a.members[..if a.ending.begun then a.ending.at + 1 else a.ending.at] else a.members
  }

  /** The marker's file is made, and writing it fails. */
  predicate MarkFails(a: Archive) {
    Unpacks(a) && a.ending == AtMarker(true)
  }

  function StageFile(parts: Path -> seq<Content>, p: Path, c: Content): (ops: seq<Op>)
    ensures |ops| > 0 && forall i :: 0 <= i < |ops| ==> ops[i].PutStaged? && ops[i].path == p
    ensures ops[|ops| - 1] == PutStaged(p, c)
  {
    seq(|parts(p)|, i requires 0 <= i < |parts(p)| => PutStaged(p, parts(p)[i])) + [PutStaged(p, c)]
  }

  function StageMembers(parts: Path -> seq<Content>, ms: seq<(Path, Content)>): seq<Op> {
    if ms == [] then []
    else StageMembers(parts, ms[..|ms| - 1]) + StageFile(parts, ms[|ms| - 1].0, ms[|ms| - 1].1)
  }

  /** What a directory the members are unpacked into holds: the last of each name. */
  function Unpacked(ms: seq<(Path, Content)>): map<Path, Content> {
    if ms == [] then map[] else Unpacked(ms[..|ms| - 1])[ms[|ms| - 1].0 := ms[|ms| - 1].1]
  }

  /** The complete staging directory, but for the marker. */
  function Complete(a: Archive, keep: Option<Content>): map<Path, Content> {
    if keep.Some? then Unpacked(a.members)[Stash := keep.value] else Unpacked(a.members)
  }

  /** A file made, and never finished. */
  function BeginFile(parts: Path -> seq<Content>, p: Path): (ops: seq<Op>)
    ensures |ops| > 0 && ops[0] == PutStaged(p, []) && forall i :: 0 <= i < |ops| ==> ops[i].PutStaged? && ops[i].path == p
  {
    [PutStaged(p, [])] + seq(|parts(p)|, i requires 0 <= i < |parts(p)| => PutStaged(p, parts(p)[i]))
  }

  /** The addresses written, or what is left of that where it fails. */
  function StageStash(a: Archive, keep: Option<Content>, parts: Path -> seq<Content>): seq<Op> {
    if keep.None? then []
    else if !a.ending.AtStash? then StageFile(parts, Stash, keep.value)
    else if a.ending.begun then BeginFile(parts, Stash)
    else []
  }

  /** The member unpacking broke at. */
  function StageBroken(a: Archive, parts: Path -> seq<Content>): seq<Op> {
    if Breaks(a) && a.ending.begun then BeginFile(parts, a.members[a.ending.at].0) else []
  }

  /** What staging does before the marker: clear the directory, unpack, keep this server's addresses. */
  function Unmarked(a: Archive, keep: Option<Content>, sweep: seq<Path>, parts: Path -> seq<Content>): seq<Op> {
    Drops(sweep) + StageMembers(parts, Finished(a)) + if Unpacks(a) then StageStash(a, keep, parts) else StageBroken(a, parts)
  }

  /** The marker, or what is left of it, and the clearing away of what failed in the order `late`. */
  function Marking(a: Archive, keep: Option<Content>, late: seq<Path>, parts: Path -> seq<Content>): seq<Op> {
    if Stages(a, keep) then StageFile(parts, Marker, a.name)
    else (if MarkFails(a) then BeginFile(parts, Marker) else []) + Drops(late)
  }

  /** Everything `Restore` does to the disk. */
  function StagePlan(a: Archive, keep: Option<Content>, sweep: seq<Path>, late: seq<Path>, parts: Path -> seq<Content>): seq<Op> {
    Unmarked(a, keep, sweep, parts) + Marking(a, keep, late, parts)
  }

  // ---- all or nothing ----

  predicate Quiet(op: Op) {
    match op
    case PutStaged(p, _) => p != Marker
    case DropStaged(_) => true
    case _ => false
  }

  lemma {:induction false} QuietOps(d: Disk, ops: seq<Op>)
    requires forall i :: 0 <= i < |ops| ==> Quiet(ops[i])
    requires Marker !in d.staged
    ensures Exec(d, ops).live == d.live && Marker !in Exec(d, ops).staged
    decreases |ops|
  {
    if ops != [] {
      QuietOps(Do(d, ops[0]), ops[1..]);
    }
  }

  lemma {:induction false} ExecStageFile(d: Disk, p: Path, ops: seq<Op>)
    requires forall i :: 0 <= i < |ops| ==> ops[i].PutStaged? && ops[i].path == p
    ensures var d' := Exec(d, ops);
            && d'.live == d.live && d'.staged - {p} == d.staged - {p}
            && (ops != [] ==> p in d'.staged && d'.staged[p] == ops[|ops| - 1].content)
            && (ops == [] ==> d' == d)
    decreases |ops|
  {
    if ops != [] {
      var d1 := Do(d, ops[0]);
      ExecStageFile(d1, p, ops[1..]);
      assert d1.staged - {p} == d.staged - {p};
    }
  }

  predicate NoMarker(ms: seq<(Path, Content)>) {
    forall i :: 0 <= i < |ms| ==> ms[i].0 != Marker
  }

  lemma {:induction false} StageMembersQuiet(parts: Path -> seq<Content>, ms: seq<(Path, Content)>)
    requires NoMarker(ms)
    ensures forall i :: 0 <= i < |StageMembers(parts, ms)| ==> Quiet(StageMembers(parts, ms)[i])
  {
    if ms != [] {
      StageMembersQuiet(parts, ms[..|ms| - 1]);
    }
  }

  lemma {:induction false} ExecStageMembers(d: Disk, parts: Path -> seq<Content>, ms: seq<(Path, Content)>)
    requires d.staged == map[]
    ensures Exec(d, StageMembers(parts, ms)) == Disk(d.live, Unpacked(ms))
  {
    if ms != [] {
      var init, last := ms[..|ms| - 1], ms[|ms| - 1];
      ExecStageMembers(d, parts, init);
      ExecConcat(d, StageMembers(parts, init), StageFile(parts, last.0, last.1));
      PutOver(Disk(d.live, Unpacked(init)), last.0, StageFile(parts, last.0, last.1), last.1);
    }
  }

  /** After the directory is cleared and members are unpacked, it holds those members. */
  lemma StagedSoFar(d: Disk, sweep: seq<Path>, parts: Path -> seq<Content>, ms: seq<(Path, Content)>)
    requires forall p :: p in d.staged ==> p in sweep
    ensures Exec(d, Drops(sweep) + StageMembers(parts, ms)) == Disk(d.live, Unpacked(ms))
  {
    ExecDrops(d, sweep);
    assert Exec(d, Drops(sweep)).staged == map[];
    ExecConcat(d, Drops(sweep), StageMembers(parts, ms));
    ExecStageMembers(Exec(d, Drops(sweep)), parts, ms);
  }

  lemma PutOver(d: Disk, p: Path, ops: seq<Op>, c: Content)
    requires forall i :: 0 <= i < |ops| ==> ops[i].PutStaged? && ops[i].path == p
    requires ops != [] && ops[|ops| - 1] == PutStaged(p, c)
    ensures Exec(d, ops) == Disk(d.live, d.staged[p := c])
  {
    ExecStageFile(d, p, ops);
    var s := Exec(d, ops).staged;
    forall q ensures Get(s, q) == Get(d.staged[p := c], q) {
      assert q != p ==> Get(s - {p}, q) == Get(s, q) && Get(d.staged - {p}, q) == Get(d.staged, q);
    }
    SameEverywhere(s, d.staged[p := c]);
  }

  lemma SameEverywhere(a: map<Path, Content>, b: map<Path, Content>)
    requires forall p :: Get(a, p) == Get(b, p)
    ensures a == b
  {
    forall p ensures p in a <==> p in b {
      assert Get(a, p) == Get(b, p);
    }
    forall p | p in a ensures a[p] == b[p] {
      assert Get(a, p) == Get(b, p);
    }
  }

  lemma UnmarkedQuiet(a: Archive, keep: Option<Content>, sweep: seq<Path>, parts: Path -> seq<Content>)
    requires NoMarker(Begun(a))
    ensures var ops := Unmarked(a, keep, sweep, parts); forall i :: 0 <= i < |ops| ==> Quiet(ops[i])
  {
    hide StageMembers, StageFile;
    assert forall i :: 0 <= i < |Finished(a)| ==> Finished(a)[i] == Begun(a)[i];
    StageMembersQuiet(parts, Finished(a));
    if Breaks(a) && a.ending.begun {
      assert Begun(a)[a.ending.at] == a.members[a.ending.at];
    }
  }

  lemma UnmarkedCompletes(a: Archive, keep: Option<Content>, sweep: seq<Path>, parts: Path -> seq<Content>, d: Disk)
    requires Unpacks(a) && !(keep.Some? && a.ending.AtStash?) && forall p :: p in d.staged ==> p in sweep
    ensures Exec(d, Unmarked(a, keep, sweep, parts)) == Disk(d.live, Complete(a, keep))
  {
    var members, drops := StageMembers(parts, a.members), Drops(sweep);
    StagedSoFar(d, sweep, parts, a.members);
    if keep.Some? {
      ExecConcat(d, drops + members, StageFile(parts, Stash, keep.value));
      PutOver(Disk(d.live, Unpacked(a.members)), Stash, StageFile(parts, Stash, keep.value), keep.value);
    } else {
      assert drops + members + [] == drops + members;
    }
  }

  /** Nothing is marked, or everything is there: every member unpacked and this server's addresses kept. */
  predicate AllOrNothing(a: Archive, keep: Option<Content>, d: Disk, d': Disk) {
    && d'.live == d.live
    && (Marker in d'.staged ==> Unpacks(a) && d'.staged - {Marker} == Complete(a, keep) - {Marker})
  }

  /** Staging that stops anywhere leaves the live files alone, and leaves no marker, or every member
      unpacked, when no member a file is made for is named like the marker, no older staging is marked, and
      writing the marker does not fail once its file is made. */
  lemma StagingIsAllOrNothing(a: Archive, keep: Option<Content>, sweep: seq<Path>, late: seq<Path>,
                              parts: Path -> seq<Content>, d: Disk, k: nat)
    requires k <= |StagePlan(a, keep, sweep, late, parts)|
    requires Marker !in d.staged && (forall p :: p in d.staged ==> p in sweep) && NoMarker(Begun(a)) && !MarkFails(a)
    ensures var d' := Exec(d, StagePlan(a, keep, sweep, late, parts)[..k]);
            && AllOrNothing(a, keep, d, d')
            && (k == |StagePlan(a, keep, sweep, late, parts)| ==>
                  (Marker in d'.staged <==> Stages(a, keep)) && (Stages(a, keep) ==> d'.staged[Marker] == a.name))
  {
    hide Exec, StageMembers, Unpacked, Unmarked;
    var quiet, tail := Unmarked(a, keep, sweep, parts), Marking(a, keep, late, parts);
    UnmarkedQuiet(a, keep, sweep, parts);
    ExecPrefix(d, quiet, tail, k);
    if k <= |quiet| {
      QuietOps(d, quiet[..k]);
    } else {
      QuietOps(d, quiet);
      var m := k - |quiet|;
      var d1 := Exec(d, quiet);
      if Stages(a, keep) {
        UnmarkedCompletes(a, keep, sweep, parts, d);
        ExecStageFile(d1, Marker, tail[..m]);
      } else {
        QuietOps(d1, tail[..m]);
      }
    }
  }

  /** The complete staging directory, marked. */
  function Marked(a: Archive, keep: Option<Content>): map<Path, Content> {
    Complete(a, keep)[Marker := a.name]
  }

  lemma StagedWhole(a: Archive, keep: Option<Content>, staged: map<Path, Content>)
    requires Marker in staged && staged - {Marker} == Complete(a, keep) - {Marker}
    ensures forall q :: q != Marker ==> Get(staged, q) == Get(Marked(a, keep), q)
  {
    forall q | q != Marker ensures Get(staged, q) == Get(Marked(a, keep), q) {
      assert Get(staged - {Marker}, q) == Get(staged, q);
      assert Get(Complete(a, keep) - {Marker}, q) == Get(Complete(a, keep), q);
    }
  }

  /** The name in the marker decides nothing. */
  lemma AfterIgnoresMarker(dbFile: Option<Path>, driver: Content -> string, d: Disk, e: Disk, p: Path)
    requires d.live == e.live && Marker in d.staged && Marker in e.staged && dbFile != Some(Marker)
    requires forall q :: q != Marker ==> Get(d.staged, q) == Get(e.staged, q)
    ensures After(dbFile, driver, d, p) == After(dbFile, driver, e, p)
  {
    assert Get(d.staged, p) == Get(e.staged, p) || p == Marker;
    assert Get(d.staged, Export) == Get(e.staged, Export);
    if dbFile.Some? {
      assert Get(d.staged, dbFile.value) == Get(e.staged, dbFile.value);
    }
  }

  // ---- exactly when staging is all or nothing ----

  /** From the first member named like the marker on, every member is. */
  ghost predicate MarkersLast(ms: seq<(Path, Content)>) {
    forall i, j :: 0 <= i < j < |ms| && ms[i].0 == Marker ==> ms[j].0 == Marker
  }

  lemma Halves(ms: seq<(Path, Content)>) returns (n: nat)
    requires MarkersLast(ms)
    ensures n <= |ms| && NoMarker(ms[..n]) && forall i :: n <= i < |ms| ==> ms[i].0 == Marker
  {
    n := |ms|;
    while n > 0 && ms[n - 1].0 == Marker
      invariant n <= |ms| && forall i :: n <= i < |ms| ==> ms[i].0 == Marker
    {
      n := n - 1;
    }
  }

  lemma {:induction false} MarkerOps(parts: Path -> seq<Content>, ms: seq<(Path, Content)>, n: nat)
    requires n <= |ms| && forall i :: n <= i < |ms| ==> ms[i].0 == Marker
    ensures StageMembers(parts, ms[..n]) <= StageMembers(parts, ms)
    ensures forall i :: |StageMembers(parts, ms[..n])| <= i < |StageMembers(parts, ms)| ==>
              StageMembers(parts, ms)[i].PutStaged? && StageMembers(parts, ms)[i].path == Marker
    ensures Unpacked(ms) - {Marker} == Unpacked(ms[..n]) - {Marker}
  {
    if n < |ms| {
      var init := ms[..|ms| - 1];
      MarkerOps(parts, init, n);
      assert init[..n] == ms[..n];
      assert Unpacked(ms) - {Marker} == Unpacked(init) - {Marker};
    } else {
      assert ms[..n] == ms;
    }
  }

  lemma MarkersPlan(a: Archive, sweep: seq<Path>, late: seq<Path>, parts: Path -> seq<Content>, n: nat) returns (tail: seq<Op>)
    requires Stages(a, None) && n <= |a.members| && forall i :: n <= i < |a.members| ==> a.members[i].0 == Marker
    ensures StagePlan(a, None, sweep, late, parts) == Drops(sweep) + StageMembers(parts, a.members[..n]) + tail
    ensures forall i :: 0 <= i < |tail| ==> tail[i].PutStaged? && tail[i].path == Marker
  {
    hide StageMembers, Unpacked;
    var quiet, plan := Drops(sweep) + StageMembers(parts, a.members[..n]), StagePlan(a, None, sweep, late, parts);
    MarkerOps(parts, a.members, n);
    tail := plan[|quiet|..];
    assert plan == quiet + tail;
    forall i | 0 <= i < |tail| ensures tail[i].PutStaged? && tail[i].path == Marker {
      assert tail[i] == plan[|quiet| + i];
    }
  }

  lemma MarkersLastHarmless(a: Archive, sweep: seq<Path>, late: seq<Path>, parts: Path -> seq<Content>, d: Disk, k: nat)
    requires k <= |StagePlan(a, None, sweep, late, parts)| && Stages(a, None) && MarkersLast(a.members)
    requires Marker !in d.staged && forall p :: p in d.staged ==> p in sweep
    ensures AllOrNothing(a, None, d, Exec(d, StagePlan(a, None, sweep, late, parts)[..k]))
  {
    hide StagePlan, StageMembers, Exec, Unpacked, MarkersLast;
    var n := Halves(a.members);
    var quiet := Drops(sweep) + StageMembers(parts, a.members[..n]);
    MarkerOps(parts, a.members, n);
    var tail := MarkersPlan(a, sweep, late, parts, n);
    StageMembersQuiet(parts, a.members[..n]);
    ExecPrefix(d, quiet, tail, k);
    if k <= |quiet| {
      QuietOps(d, quiet[..k]);
    } else {
      StagedSoFar(d, sweep, parts, a.members[..n]);
      ExecStageFile(Exec(d, quiet), Marker, tail[..k - |quiet|]);
    }
  }

  /** One file of the archive written again, through content that is not the file's own. */
  function Passing(p: Path, c: Content): Path -> seq<Content> {
    q => if q == p then [c + [0]] else []
  }

  lemma LaterWriteMixes(d: Disk, ops: seq<Op>, p: Path, c: Content, done: map<Path, Content>, rest: seq<Op>)
    requires p != Marker && Exec(d, ops).staged == done && Marker in done
    ensures var plan := ops + ([PutStaged(p, c + [0])] + rest);
            var d' := Exec(d, plan[..|ops| + 1]);
            Marker in d'.staged && Get(d'.staged - {Marker}, p) == Some(c + [0])
  {
    var put := PutStaged(p, c + [0]);
    var plan := ops + ([put] + rest);
    assert plan[..|ops| + 1] == ops + [put];
    ExecConcat(d, ops, [put]);
    assert [put][1..] == [];
    assert Exec(Exec(d, ops), [put]) == Do(Exec(d, ops), put);
  }

  /** Every member is named like the marker. */
  predicate OnlyMarkers(ms: seq<(Path, Content)>) {
    forall i :: 0 <= i < |ms| ==> ms[i].0 == Marker
  }

  /** No marker is made but by a restore that comes through, after everything else; or one is a member, and
      nothing else is written after it or cleared away beside it. */
  ghost predicate Safe(a: Archive, keep: Option<Content>) {
    || (NoMarker(Begun(a)) && !MarkFails(a))
    || (Unpacks(a) && keep.None? && MarkersLast(a.members) && (Stages(a, keep) || OnlyMarkers(a.members)))
  }

  /** Where there is only the marker in the staging directory, nothing is missing beside it. */
  lemma {:induction false} MarkerAlone(d: Disk, ops: seq<Op>)
    requires d.staged - {Marker} == map[]
    requires forall i :: 0 <= i < |ops| ==> ops[i].DropStaged? || (ops[i].PutStaged? && ops[i].path == Marker)
    ensures Exec(d, ops).live == d.live && Exec(d, ops).staged - {Marker} == map[]
    decreases |ops|
  {
    if ops != [] {
      assert forall p :: p in d.staged ==> p == Marker by {
        assert forall p :: p in d.staged && p != Marker ==> p in d.staged - {Marker};
      }
      MarkerAlone(Do(d, ops[0]), ops[1..]);
    }
  }

  lemma OnlyMarkersHarmless(a: Archive, sweep: seq<Path>, late: seq<Path>, parts: Path -> seq<Content>, d: Disk, k: nat)
    requires k <= |StagePlan(a, None, sweep, late, parts)| && Unpacks(a) && OnlyMarkers(a.members)
    requires Marker !in d.staged && forall p :: p in d.staged ==> p in sweep
    ensures AllOrNothing(a, None, d, Exec(d, StagePlan(a, None, sweep, late, parts)[..k]))
  {
    hide StageMembers, Exec, Unpacked;
    var members, marking := StageMembers(parts, a.members), Marking(a, None, late, parts);
    assert StagePlan(a, None, sweep, late, parts) == Drops(sweep) + (members + marking);
    ExecPrefix(d, Drops(sweep), members + marking, k);
    MarkerOps(parts, a.members, 0);
    assert a.members[..0] == [];
    NothingStaged(parts);
    if k <= |sweep| {
      QuietOps(d, Drops(sweep)[..k]);
    } else {
      ExecDrops(d, sweep);
      MarkerAlone(Exec(d, Drops(sweep)), (members + marking)[..k - |sweep|]);
    }
  }

  lemma NothingStaged(parts: Path -> seq<Content>)
    ensures StageMembers(parts, []) == [] && Unpacked([]) == map[]
  {
  }

  /** A crash of a staging that is not safe. */
  lemma MarkerMemberMixes(a: Archive, keep: Option<Content>, sweep: seq<Path>, d: Disk)
    returns (late: seq<Path>, parts: Path -> seq<Content>, k: nat)
    requires forall p :: p in d.staged ==> p in sweep
    requires !Safe(a, keep)
    ensures k <= |StagePlan(a, keep, sweep, late, parts)|
    ensures !AllOrNothing(a, keep, d, Exec(d, StagePlan(a, keep, sweep, late, parts)[..k]))
  {
    late, parts := [], _ => [];
    if !Unpacks(a) {
      k := BrokenMixes(a, keep, sweep, late, d, parts);
    } else if NoMarker(a.members) {
      UnpackedHas(a.members, 0);
      late, k := ClearedMixes(a, keep, sweep, d, parts, a.members[0].0);
    } else if !MarkersLast(a.members) {
      var i, j :| 0 <= i < j < |a.members| && a.members[i].0 == Marker && a.members[j].0 != Marker;
      parts, k := MemberMixes(a, keep, sweep, late, d, i, j);
    } else if keep.Some? {
      late, parts, k := StashMixes(a, keep, sweep, d);
    } else {
      var i :| 0 <= i < |a.members| && a.members[i].0 != Marker;
      UnpackedHas(a.members, i);
      var j :| 0 <= j < |a.members| && a.members[j].0 == Marker;
      UnpackedHas(a.members, j);
      late, k := ClearedMixes(a, keep, sweep, d, parts, a.members[i].0);
    }
  }

  /** A member named like the marker, or begun to be, of an archive that does not unpack. */
  lemma BrokenMixes(a: Archive, keep: Option<Content>, sweep: seq<Path>, late: seq<Path>, d: Disk, parts: Path -> seq<Content>)
    returns (k: nat)
    requires forall p :: p in d.staged ==> p in sweep
    requires !NoMarker(Begun(a)) && !Unpacks(a)
    ensures k <= |StagePlan(a, keep, sweep, late, parts)|
    ensures !AllOrNothing(a, keep, d, Exec(d, StagePlan(a, keep, sweep, late, parts)[..k]))
  {
    hide StageMembers, Exec, Unpacked, Drops;
    var ops := Drops(sweep) + StageMembers(parts, Finished(a));
    var plan := StagePlan(a, keep, sweep, late, parts);
    assert ops <= plan;
    StagedSoFar(d, sweep, parts, Finished(a));
    assert forall j :: 0 <= j < |Finished(a)| ==> Begun(a)[j] == Finished(a)[j];
    if i :| 0 <= i < |Finished(a)| && Finished(a)[i].0 == Marker {
      k := |ops|;
      assert plan[..k] == ops;
      UnpackedHas(Finished(a), i);
    } else {
      var i :| 0 <= i < |Begun(a)| && Begun(a)[i].0 == Marker;
      assert i == a.ending.at;
      var put := PutStaged(Marker, []);
      k := |ops| + 1;
      assert plan[..k] == ops + [put];
      ExecOne(d, ops, put);
    }
  }

  lemma ExecOne(d: Disk, ops: seq<Op>, op: Op)
    ensures Exec(d, ops + [op]) == Do(Exec(d, ops), op)
  {
    ExecConcat(d, ops, [op]);
    assert [op][1..] == [];
    assert Exec(Exec(d, ops), [op]) == Do(Exec(d, ops), op);
  }

  /** The marker cannot be written, and one is there: clearing away what was staged can leave it over the rest. */
  lemma ClearedMixes(a: Archive, keep: Option<Content>, sweep: seq<Path>, d: Disk, parts: Path -> seq<Content>, p: Path)
    returns (late: seq<Path>, k: nat)
    requires forall q :: q in d.staged ==> q in sweep
    requires Unpacks(a) && a.ending.AtMarker? && p != Marker && p in Unpacked(a.members)
    requires a.ending.begun || Marker in Unpacked(a.members)
    ensures k <= |StagePlan(a, keep, sweep, late, parts)|
    ensures !AllOrNothing(a, keep, d, Exec(d, StagePlan(a, keep, sweep, late, parts)[..k]))
  {
    hide Exec, Unmarked;
    late := [p];
    var quiet := Unmarked(a, keep, sweep, parts);
    var marks := if MarkFails(a) then BeginFile(parts, Marker) else [];
    var plan := StagePlan(a, keep, sweep, late, parts);
    k := |plan|;
    assert plan[..k] == quiet + (marks + Drops(late));
    UnmarkedCompletes(a, keep, sweep, parts, d);
    ExecConcat(d, quiet, marks + Drops(late));
    var d1 := Exec(d, quiet);
    ExecConcat(d1, marks, Drops(late));
    ExecStageFile(d1, Marker, marks);
    var d2 := Exec(d1, marks);
    ExecDrops(d2, late);
    assert Marker in d2.staged && p !in Exec(d2, Drops(late)).staged;
    assert p in Complete(a, keep) - {Marker};
  }

  lemma MemberMixes(a: Archive, keep: Option<Content>, sweep: seq<Path>, late: seq<Path>, d: Disk, i: nat, j: nat)
    returns (parts: Path -> seq<Content>, k: nat)
    requires forall p :: p in d.staged ==> p in sweep
    requires Unpacks(a) && i < j < |a.members| && a.members[i].0 == Marker && a.members[j].0 != Marker
    ensures k <= |StagePlan(a, keep, sweep, late, parts)|
    ensures !AllOrNothing(a, keep, d, Exec(d, StagePlan(a, keep, sweep, late, parts)[..k]))
  {
    hide StagePlan, StageMembers, Exec, Unpacked;
    var p, early := a.members[j].0, a.members[..j];
    UnpackedHas(a.members, j);
    CompleteHas(a, keep, p);
    var c := Complete(a, keep)[p];
    parts := Passing(p, c);
    var ops := Drops(sweep) + StageMembers(parts, early);
    k := |ops| + 1;
    var rest := MemberPlan(a, keep, sweep, late, parts, j, c + [0]);
    StagedSoFar(d, sweep, parts, early);
    UnpackedHas(early, i);
    LaterWriteMixes(d, ops, p, c, Unpacked(early), rest);
    OtherContent(c, Complete(a, keep), p);
  }

  lemma CompleteHas(a: Archive, keep: Option<Content>, p: Path)
    requires p in Unpacked(a.members)
    ensures p in Complete(a, keep)
  {
  }

  lemma MemberPlan(a: Archive, keep: Option<Content>, sweep: seq<Path>, late: seq<Path>, parts: Path -> seq<Content>, j: nat, c: Content)
    returns (rest: seq<Op>)
    requires Unpacks(a) && j < |a.members| && parts(a.members[j].0) == [c]
    ensures StagePlan(a, keep, sweep, late, parts)
         == Drops(sweep) + StageMembers(parts, a.members[..j]) + ([PutStaged(a.members[j].0, c)] + rest)
  {
    hide StagePlan, StageMembers, Drops;
    var p, plan := a.members[j].0, StagePlan(a, keep, sweep, late, parts);
    var ops, file := Drops(sweep) + StageMembers(parts, a.members[..j]), StageFile(parts, p, a.members[j].1);
    StagePlanPrefix(a, keep, sweep, late, parts, j + 1);
    MembersNext(parts, a.members, j);
    assert ops + file == Drops(sweep) + StageMembers(parts, a.members[..j + 1]);
    FirstOf(ops, file, plan);
    rest := plan[|ops| + 1..];
  }

  lemma MembersNext(parts: Path -> seq<Content>, ms: seq<(Path, Content)>, j: nat)
    requires j < |ms|
    ensures StageMembers(parts, ms[..j + 1]) == StageMembers(parts, ms[..j]) + StageFile(parts, ms[j].0, ms[j].1)
  {
    assert ms[..j + 1][..j] == ms[..j];
  }

  lemma FirstOf(ops: seq<Op>, file: seq<Op>, plan: seq<Op>)
    requires ops + file <= plan && file != []
    ensures plan == ops + ([file[0]] + plan[|ops| + 1..])
  {
    assert plan[..|ops| + |file|] == ops + file;
  }

  /** Before the addresses are written, all members are there, and the marker with them. */
  lemma BeforeStash(a: Archive, keep: Option<Content>, sweep: seq<Path>, late: seq<Path>, parts: Path -> seq<Content>, d: Disk)
    returns (ops: seq<Op>)
    requires Unpacks(a) && !NoMarker(a.members) && forall p :: p in d.staged ==> p in sweep
    ensures StagePlan(a, keep, sweep, late, parts) == ops + (StageStash(a, keep, parts) + Marking(a, keep, late, parts))
    ensures Exec(d, ops) == Disk(d.live, Unpacked(a.members)) && Marker in Exec(d, ops).staged
  {
    hide StageMembers, Unpacked, Exec, Drops, StageStash, Marking;
    ops := Drops(sweep) + StageMembers(parts, a.members);
    StagedSoFar(d, sweep, parts, a.members);
    var i :| 0 <= i < |a.members| && a.members[i].0 == Marker;
    UnpackedHas(a.members, i);
  }

  /** The marker is there before the addresses, which are cleared away or written over. */
  lemma StashMixes(a: Archive, keep: Option<Content>, sweep: seq<Path>, d: Disk)
    returns (late: seq<Path>, parts: Path -> seq<Content>, k: nat)
    requires forall p :: p in d.staged ==> p in sweep
    requires Unpacks(a) && keep.Some? && !NoMarker(a.members)
    ensures k <= |StagePlan(a, keep, sweep, late, parts)|
    ensures !AllOrNothing(a, keep, d, Exec(d, StagePlan(a, keep, sweep, late, parts)[..k]))
  {
    late, parts := [Stash], Passing(Stash, keep.value);
    var ops := BeforeStash(a, keep, sweep, late, parts, d);
    if a.ending == AtStash(false) {
      k := StashCleared(a, keep, sweep, d, ops);
    } else {
      k := StashPassing(a, keep, sweep, d, ops);
    }
  }

  lemma StashCleared(a: Archive, keep: Option<Content>, sweep: seq<Path>, d: Disk, ops: seq<Op>) returns (k: nat)
    requires Unpacks(a) && keep.Some? && a.ending == AtStash(false)
    requires var late, parts := [Stash], Passing(Stash, keep.value);
             StagePlan(a, keep, sweep, late, parts) == ops + (StageStash(a, keep, parts) + Marking(a, keep, late, parts))
    requires Marker in Exec(d, ops).staged
    ensures var plan := StagePlan(a, keep, sweep, [Stash], Passing(Stash, keep.value));
            k <= |plan| && !AllOrNothing(a, keep, d, Exec(d, plan[..k]))
  {
    hide StagePlan, Exec;
    var plan := StagePlan(a, keep, sweep, [Stash], Passing(Stash, keep.value));
    k := |plan|;
    assert plan[..k] == ops + Drops([Stash]);
    ExecConcat(d, ops, Drops([Stash]));
    ExecDrops(Exec(d, ops), [Stash]);
    assert Stash in Complete(a, keep) - {Marker};
  }

  lemma StashPassing(a: Archive, keep: Option<Content>, sweep: seq<Path>, d: Disk, ops: seq<Op>) returns (k: nat)
    requires Unpacks(a) && keep.Some? && a.ending != AtStash(false)
    requires var late, parts := [Stash], Passing(Stash, keep.value);
             StagePlan(a, keep, sweep, late, parts) == ops + (StageStash(a, keep, parts) + Marking(a, keep, late, parts))
    requires Marker in Exec(d, ops).staged
    ensures var plan := StagePlan(a, keep, sweep, [Stash], Passing(Stash, keep.value));
            k <= |plan| && !AllOrNothing(a, keep, d, Exec(d, plan[..k]))
  {
    hide StagePlan, Exec, Marking;
    var c, plan := keep.value, StagePlan(a, keep, sweep, [Stash], Passing(Stash, keep.value));
    var put, first := PutStaged(Stash, c + [0]), PutStaged(Stash, []);
    OtherContent(c, Complete(a, keep), Stash);
    if a.ending.AtStash? {
      k := |ops| + 2;
      assert plan[..k] == ops + [first] + [put];
      ExecOne(d, ops, first);
      ExecOne(d, ops + [first], put);
    } else {
      k := |ops| + 1;
      assert plan[..k] == ops + [put];
      ExecOne(d, ops, put);
    }
  }

  lemma OtherContent(c: Content, done: map<Path, Content>, p: Path)
    requires Get(done, p) == Some(c) && p != Marker
    ensures forall m: map<Path, Content> :: Get(m - {Marker}, p) == Some(c + [0]) ==> m - {Marker} != done - {Marker}
  {
    assert |c + [0]| != |c|;
    assert Get(done - {Marker}, p) == Some(c);
  }

  /** Over a staging directory that is not marked, a crash of staging is harmless wherever it comes, whatever
      a file passes through while it is written and in whatever order a failed staging is cleared away, exactly
      when the archive and how staging it ends are `Safe`. */
  lemma StagingHarmlessExactlyWhen(a: Archive, keep: Option<Content>, sweep: seq<Path>, d: Disk)
    requires Marker !in d.staged && forall p :: p in d.staged ==> p in sweep
    ensures (forall late, parts: Path -> seq<Content>, k: nat :: k <= |StagePlan(a, keep, sweep, late, parts)| ==>
               AllOrNothing(a, keep, d, Exec(d, StagePlan(a, keep, sweep, late, parts)[..k])))
       <==> Safe(a, keep)
  {
    if Safe(a, keep) {
      forall late, parts: Path -> seq<Content>, k: nat | k <= |StagePlan(a, keep, sweep, late, parts)|
        ensures AllOrNothing(a, keep, d, Exec(d, StagePlan(a, keep, sweep, late, parts)[..k]))
      {
        SafeIsHarmless(a, keep, sweep, late, parts, d, k);
      }
    } else {
      var late, parts, k := MarkerMemberMixes(a, keep, sweep, d);
    }
  }

  lemma SafeIsHarmless(a: Archive, keep: Option<Content>, sweep: seq<Path>, late: seq<Path>,
                       parts: Path -> seq<Content>, d: Disk, k: nat)
    requires Safe(a, keep) && k <= |StagePlan(a, keep, sweep, late, parts)|
    requires Marker !in d.staged && forall p :: p in d.staged ==> p in sweep
    ensures AllOrNothing(a, keep, d, Exec(d, StagePlan(a, keep, sweep, late, parts)[..k]))
  {
    if NoMarker(Begun(a)) && !MarkFails(a) {
      StagingIsAllOrNothing(a, keep, sweep, late, parts, d, k);
    } else if Stages(a, keep) {
      MarkersLastHarmless(a, sweep, late, parts, d, k);
    } else {
      OnlyMarkersHarmless(a, sweep, late, parts, d, k);
    }
  }

  /** So whatever a safe staging was doing when it died, the next start leaves every live file as it was,
      when the marker is not there, or as the whole archive makes it, when it is. */
  lemma NextStartIsAllOrNothing(a: Archive, keep: Option<Content>, sweep: seq<Path>, late: seq<Path>,
                                parts: Path -> seq<Content>, d: Disk, k: nat, run: Run, p: Path)
    requires Safe(a, keep) && k <= |StagePlan(a, keep, sweep, late, parts)|
    requires Marker !in d.staged && (forall q :: q in d.staged ==> q in sweep)
    requires run.dbFile != Some(Marker)
    requires Lists(run, Exec(d, StagePlan(a, keep, sweep, late, parts)[..k]))
    ensures var d' := Exec(d, StagePlan(a, keep, sweep, late, parts)[..k]);
            var f := Exec(d', ApplyPlan(run, d'));
            && f.staged == map[]
            && (Marker !in d'.staged ==> Get(f.live, p) == Get(d.live, p))
            && (Marker in d'.staged ==>
                  Unpacks(a) && Get(f.live, p) == After(run.dbFile, run.driver, Disk(d.live, Marked(a, keep)), p))
  {
    hide Exec, StagePlan, ApplyPlan, Safe, Complete;
    var d' := Exec(d, StagePlan(a, keep, sweep, late, parts)[..k]);
    SafeIsHarmless(a, keep, sweep, late, parts, d, k);
    FinishedStart(run, d', p);
    if Marker in d'.staged {
      StagedWhole(a, keep, d'.staged);
      AfterIgnoresMarker(run.dbFile, run.driver, d', Disk(d.live, Marked(a, keep)), p);
    }
  }

  // ---- over an older staging ----

  /** Side files of databases are removed by every start; of all else, what the next start would make is
      neither what the older staging makes of it nor what is live. */
  ghost predicate Mixes(dbFile: Option<Path>, driver: Content -> string, d: Disk, d': Disk) {
    && (exists p: Path :: !p.Sidecar? && After(dbFile, driver, d', p) != After(dbFile, driver, d, p))
    && (exists p: Path :: !p.Sidecar? && After(dbFile, driver, d', p) != Get(d.live, p))
  }

  /** What a start that has decided between database file and dump puts in a place, if anything. */
  function Brings(byFile: bool, staged: map<Path, Content>, x: Path): Option<Content> {
    if x == PendingImport && Export in staged && !byFile then Some(staged[Export])
    else if Movable(x) && x in staged && (byFile || !x.Db?) then Some(staged[x])
    else None
  }

  /** Which is not what is there. */
  predicate Alters(live: map<Path, Content>, x: Path, c: Option<Content>) {
    c.Some? && Get(live, x) != c
  }

  lemma AfterIs(dbFile: Option<Path>, driver: Content -> string, d: Disk, x: Path)
    requires Marker in d.staged && !x.Sidecar?
    ensures var c := Brings(ByFile(dbFile, driver, d.staged), d.staged, x);
            After(dbFile, driver, d, x) == if c.Some? then c else Get(d.live, x)
  {
  }

  /** Clearing an older marked staging away stops on a mixture exactly when the marker is still there, what is
      left alters something, and something is altered otherwise than by the whole; with a database file or a
      dump gone, what is left may be decided the other way. */
  lemma ClearingMixesExactlyWhen(dbFile: Option<Path>, driver: Content -> string, d: Disk, sweep: seq<Path>)
    requires Marker in d.staged
    ensures var left := d.staged - set p | p in sweep;
            var was, now := ByFile(dbFile, driver, d.staged), ByFile(dbFile, driver, left);
            Mixes(dbFile, driver, d, Exec(d, Drops(sweep))) <==>
              && Marker !in sweep
              && (exists x: Path :: !x.Sidecar? && Alters(d.live, x, Brings(now, left, x)))
              && (exists x: Path :: !x.Sidecar? && Brings(now, left, x) != Brings(was, d.staged, x)
                                    && (Alters(d.live, x, Brings(now, left, x)) || Alters(d.live, x, Brings(was, d.staged, x))))
  {
    hide After, Brings, ByFile;
    ExecDrops(d, sweep);
    var d' := Exec(d, Drops(sweep));
    if Marker !in sweep {
      forall x: Path | !x.Sidecar?
        ensures var c, c' := Brings(ByFile(dbFile, driver, d.staged), d.staged, x), Brings(ByFile(dbFile, driver, d'.staged), d'.staged, x);
                && After(dbFile, driver, d, x) == (if c.Some? then c else Get(d.live, x))
                && After(dbFile, driver, d', x) == (if c'.Some? then c' else Get(d.live, x))
      {
        AfterIs(dbFile, driver, d, x);
        AfterIs(dbFile, driver, d', x);
      }
    } else {
      forall x: Path ensures After(dbFile, driver, d', x) == Get(d.live, x) {
        NotMarked(dbFile, driver, d', x);
      }
    }
  }

  lemma NotMarked(dbFile: Option<Path>, driver: Content -> string, d: Disk, x: Path)
    requires Marker !in d.staged
    ensures After(dbFile, driver, d, x) == Get(d.live, x)
  {
  }

  /** A restore that clears in this order and stops after k of the removals leaves a mixture. */
  ghost predicate StopsMixed(a: Archive, keep: Option<Content>, sweep: seq<Path>, late: seq<Path>, parts: Path -> seq<Content>,
                             dbFile: Option<Path>, driver: Content -> string, d: Disk, k: nat) {
    && Listing(sweep, d.staged) && k <= |sweep| <= |StagePlan(a, keep, sweep, late, parts)|
    && Mixes(dbFile, driver, d, Exec(d, StagePlan(a, keep, sweep, late, parts)[..k]))
  }

  /** Where a staged file goes when it goes anywhere. */
  function Goes(p: Path): Path {
    if p == Export then PendingImport else p
  }

  /** A staged file that some part of the staging would put in place of other content: the dump when no database
      file is left, a database file when the panel's own is there. */
  predicate CanCome(dbFile: Option<Path>, d: Disk, p: Path) {
    && p in d.staged && (p == Export || Movable(p)) && !p.Sidecar?
    && (p.Db? ==> dbFile.Some? && dbFile.value in d.staged)
    && Get(d.live, Goes(p)) != Some(d.staged[p])
  }

  /** The whole of an older staging changes two places. */
  ghost predicate ChangesTwo(dbFile: Option<Path>, driver: Content -> string, d: Disk) {
    exists x: Path, y: Path :: x != y && !x.Sidecar? && !y.Sidecar?
      && After(dbFile, driver, d, x) != Get(d.live, x) && After(dbFile, driver, d, y) != Get(d.live, y)
  }

  /** A part of it brings what the whole does not: the dump, once the panel's database file is gone; database
      files, once another engine's dump is; or one of two that go to the same place. */
  ghost predicate Turns(dbFile: Option<Path>, driver: Content -> string, d: Disk) {
    exists p :: CanCome(dbFile, d, p) && After(dbFile, driver, d, Goes(p)) != Some(d.staged[p])
  }

  /** What is left of a staging directory. */
  function Only(staged: map<Path, Content>, kept: set<Path>): map<Path, Content> {
    map p | p in staged && p in kept :: staged[p]
  }

  /** Those left for one file to come: it, and for a database file the panel's own. */
  function Company(dbFile: Option<Path>, p: Path): set<Path> {
    {Marker, p} + if p.Db? && dbFile.Some? then {dbFile.value} else {}
  }

  /** Left with those alone, the file comes, and of all else only the panel's database file can. */
  lemma AloneComes(dbFile: Option<Path>, driver: Content -> string, d: Disk, p: Path)
    requires Marker in d.staged && DataFile(dbFile) && CanCome(dbFile, d, p)
    ensures var e := Disk(d.live, Only(d.staged, Company(dbFile, p)));
            && After(dbFile, driver, e, Goes(p)) == Some(d.staged[p])
            && forall y: Path :: y != Goes(p) && !y.Sidecar? && !(p.Db? && Some(y) == dbFile) ==> After(dbFile, driver, e, y) == Get(d.live, y)
  {
  }

  /** What the whole puts in a place of other content is a file that can come there. */
  lemma SourceOf(dbFile: Option<Path>, driver: Content -> string, d: Disk, x: Path) returns (p: Path)
    requires Marker in d.staged && !x.Sidecar? && After(dbFile, driver, d, x) != Get(d.live, x)
    ensures CanCome(dbFile, d, p) && Goes(p) == x && After(dbFile, driver, d, x) == Some(d.staged[p])
    ensures x != PendingImport ==> p == x
  {
    p := if x == PendingImport && Export in d.staged && !ByFile(dbFile, driver, d.staged) then Export else x;
  }

  /** A staging directory some files of which are gone brings only what can come. */
  lemma PartBrings(dbFile: Option<Path>, driver: Content -> string, d: Disk, e: Disk, x: Path)
    requires Marker in d.staged && !x.Sidecar? && e.live == d.live
    requires forall p :: p in e.staged ==> p in d.staged && e.staged[p] == d.staged[p]
    requires !Turns(dbFile, driver, d) && After(dbFile, driver, e, x) != Get(d.live, x)
    ensures After(dbFile, driver, d, x) == After(dbFile, driver, e, x)
  {
    hide After, Turns;
    if Marker !in e.staged {
      NotMarked(dbFile, driver, e, x);
      assert false;
    }
    var p := SourceOf(dbFile, driver, e, x);
    assert CanCome(dbFile, d, p);
    NoTurn(dbFile, driver, d, p);
  }

  lemma NoTurn(dbFile: Option<Path>, driver: Content -> string, d: Disk, p: Path)
    requires !Turns(dbFile, driver, d) && CanCome(dbFile, d, p)
    ensures After(dbFile, driver, d, Goes(p)) == Some(d.staged[p])
  {
  }

  lemma MixtureHasCause(dbFile: Option<Path>, driver: Content -> string, d: Disk, e: Disk)
    requires Marker in d.staged && e.live == d.live && Mixes(dbFile, driver, d, e)
    requires forall p :: p in e.staged ==> p in d.staged && e.staged[p] == d.staged[p]
    ensures ChangesTwo(dbFile, driver, d) || Turns(dbFile, driver, d)
  {
    hide After, Turns;
    if !Turns(dbFile, driver, d) {
      var x: Path :| !x.Sidecar? && After(dbFile, driver, e, x) != After(dbFile, driver, d, x);
      var y: Path :| !y.Sidecar? && After(dbFile, driver, e, y) != Get(d.live, y);
      PartBrings(dbFile, driver, d, e, y);
      if After(dbFile, driver, d, x) == Get(d.live, x) {
        PartBrings(dbFile, driver, d, e, x);
      }
    }
  }

  /** One file, left alone, where the whole changes another place too or does not bring that file. */
  lemma AloneMixes(dbFile: Option<Path>, driver: Content -> string, d: Disk, p: Path, y: Path)
    requires Marker in d.staged && DataFile(dbFile) && CanCome(dbFile, d, p)
    requires After(dbFile, driver, d, Goes(p)) != Some(d.staged[p])
             || (y != Goes(p) && !y.Sidecar? && !(p.Db? && Some(y) == dbFile) && After(dbFile, driver, d, y) != Get(d.live, y))
    ensures Mixes(dbFile, driver, d, Disk(d.live, Only(d.staged, Company(dbFile, p))))
  {
    hide After;
    var e := Disk(d.live, Only(d.staged, Company(dbFile, p)));
    AloneComes(dbFile, driver, d, p);
    assert !Goes(p).Sidecar? && After(dbFile, driver, e, Goes(p)) != Get(d.live, Goes(p));
  }

  lemma CauseMixes(dbFile: Option<Path>, driver: Content -> string, d: Disk) returns (kept: set<Path>)
    requires Marker in d.staged && DataFile(dbFile)
    requires ChangesTwo(dbFile, driver, d) || Turns(dbFile, driver, d)
    ensures Mixes(dbFile, driver, d, Disk(d.live, Only(d.staged, kept)))
  {
    hide After, Mixes;
    if p :| CanCome(dbFile, d, p) && After(dbFile, driver, d, Goes(p)) != Some(d.staged[p]) {
      kept := Company(dbFile, p);
      AloneMixes(dbFile, driver, d, p, Marker);
    } else {
      var x: Path, y: Path :| x != y && !x.Sidecar? && !y.Sidecar?
        && After(dbFile, driver, d, x) != Get(d.live, x) && After(dbFile, driver, d, y) != Get(d.live, y);
      var p := SourceOf(dbFile, driver, d, x);
      var q := SourceOf(dbFile, driver, d, y);
      if p.Db? && Some(y) == dbFile {
        kept := Company(dbFile, q);
        AloneMixes(dbFile, driver, d, q, x);
      } else {
        kept := Company(dbFile, p);
        AloneMixes(dbFile, driver, d, p, y);
      }
    }
  }

  /** Some order of removal leaves just those. */
  lemma LeavingOnly(d: Disk, kept: set<Path>) returns (sweep: seq<Path>, k: nat)
    ensures Listing(sweep, d.staged) && k <= |sweep|
    ensures Exec(d, Drops(sweep[..k])) == Disk(d.live, Only(d.staged, kept))
  {
    var first := ListingOf(d.staged.Keys - kept);
    var rest := ListingOf(d.staged.Keys * kept);
    sweep, k := first + rest, |first|;
    assert sweep[..k] == first;
    forall i, j | 0 <= i < j < |sweep| ensures sweep[i] != sweep[j] {
      assert i < k ==> sweep[i] in first;
      assert j >= k ==> sweep[j] == rest[j - k] && sweep[j] in rest;
    }
    ExecDrops(d, first);
    assert d.staged - (set n | n in first) == Only(d.staged, kept);
  }

  /** So a restore over an older marked staging can stop on a mixture, for some order its files are removed in,
      exactly when that one would change two places, database files and the dump's among them, or a part of
      it would bring what the whole does not. */
  lemma OlderStagingMixesExactlyWhen(a: Archive, keep: Option<Content>, late: seq<Path>, parts: Path -> seq<Content>,
                                     dbFile: Option<Path>, driver: Content -> string, d: Disk)
    requires Marker in d.staged && DataFile(dbFile)
    ensures (exists sweep, k: nat :: StopsMixed(a, keep, sweep, late, parts, dbFile, driver, d, k))
       <==> ChangesTwo(dbFile, driver, d) || Turns(dbFile, driver, d)
  {
    hide Mixes, ChangesTwo, Turns, Exec, StagePlan;
    if ChangesTwo(dbFile, driver, d) || Turns(dbFile, driver, d) {
      var kept := CauseMixes(dbFile, driver, d);
      var sweep, k := LeavingOnly(d, kept);
      ClearedSoFar(a, keep, sweep, late, parts, k);
      ClearedSoFar(a, keep, sweep, late, parts, |sweep|);
      assert StopsMixed(a, keep, sweep, late, parts, dbFile, driver, d, k);
    }
    if exists sweep, k: nat :: StopsMixed(a, keep, sweep, late, parts, dbFile, driver, d, k) {
      var sweep, k: nat :| StopsMixed(a, keep, sweep, late, parts, dbFile, driver, d, k);
      ClearedSoFar(a, keep, sweep, late, parts, k);
      ExecDrops(d, sweep[..k]);
      MixtureHasCause(dbFile, driver, d, Exec(d, StagePlan(a, keep, sweep, late, parts)[..k]));
    }
  }

  /** A turn is one of three: the dump comes once the panel's database file is gone; database files come once
      another engine's dump is gone; or the archive holds something else than the dump in the dump's place. */
  lemma TurnsExactlyWhen(dbFile: Option<Path>, driver: Content -> string, d: Disk)
    requires Marker in d.staged && DataFile(dbFile)
    ensures var byFile := ByFile(dbFile, driver, d.staged);
            var dump, own := Get(d.staged, Export), Get(d.staged, PendingImport);
            Turns(dbFile, driver, d) <==>
              || (byFile && Alters(d.live, PendingImport, dump) && own != dump)
              || (!byFile && dump.Some? && Alters(d.live, PendingImport, own) && own != dump)
              || (!byFile && dbFile.Some? && dbFile.value in d.staged && exists p: Path :: p.Db? && Alters(d.live, p, Get(d.staged, p)))
  {
    var byFile := ByFile(dbFile, driver, d.staged);
    if !byFile && dbFile.Some? && dbFile.value in d.staged {
      if p: Path :| p.Db? && Alters(d.live, p, Get(d.staged, p)) {
        assert CanCome(dbFile, d, p);
      }
    }
    if byFile && Alters(d.live, PendingImport, Get(d.staged, Export)) {
      assert CanCome(dbFile, d, Export);
    }
    if !byFile && Alters(d.live, PendingImport, Get(d.staged, PendingImport)) {
      assert CanCome(dbFile, d, PendingImport);
    }
    if p :| CanCome(dbFile, d, p) && After(dbFile, driver, d, Goes(p)) != Some(d.staged[p]) {
      assert Get(d.staged, p) == Some(d.staged[p]);
    }
  }

  lemma ClearedSoFar(a: Archive, keep: Option<Content>, sweep: seq<Path>, late: seq<Path>, parts: Path -> seq<Content>, k: nat)
    requires k <= |sweep|
    ensures k <= |StagePlan(a, keep, sweep, late, parts)| && StagePlan(a, keep, sweep, late, parts)[..k] == Drops(sweep[..k])
  {
  }

  lemma ListingOf(ps: set<Path>) returns (l: seq<Path>)
    ensures (forall i, j :: 0 <= i < j < |l| ==> l[i] != l[j]) && (forall q :: q in l <==> q in ps)
    decreases ps
  {
    l := [];
    if ps != {} {
      var p :| p in ps;
      var rest := ListingOf(ps - {p});
      l := rest + [p];
      assert forall i :: 0 <= i < |rest| ==> rest[i] in rest;
    }
  }

  lemma StagePlanPrefix(a: Archive, keep: Option<Content>, sweep: seq<Path>, late: seq<Path>, parts: Path -> seq<Content>, n: nat)
    requires Unpacks(a) && n <= |a.members|
    ensures Drops(sweep) + StageMembers(parts, a.members[..n]) <= StagePlan(a, keep, sweep, late, parts)
  {
    StageMembersPrefix(parts, a.members, n);
  }

  lemma {:induction false} StageMembersPrefix(parts: Path -> seq<Content>, ms: seq<(Path, Content)>, n: nat)
    requires n <= |ms|
    ensures StageMembers(parts, ms[..n]) <= StageMembers(parts, ms)
  {
    if n < |ms| {
      StageMembersPrefix(parts, ms[..|ms| - 1], n);
      assert ms[..|ms| - 1][..n] == ms[..n];
    } else {
      assert ms[..n] == ms;
    }
  }

  lemma {:induction false} UnpackedHas(ms: seq<(Path, Content)>, i: nat)
    requires i < |ms|
    ensures ms[i].0 in Unpacked(ms)
  {
    if i < |ms| - 1 {
      UnpackedHas(ms[..|ms| - 1], i);
    }
  }

  // ---- the two halves as they run ----

  lemma ExecNothing(d: Disk)
    ensures Exec(d, []) == d
  {
  }

  lemma NothingBroken(a: Archive, parts: Path -> seq<Content>)
    ensures !Breaks(a) ==> forall ops: seq<Op> :: ops + StageBroken(a, parts) == ops
  {
  }

  class DataDir {
    var disk: Disk
    ghost var made: seq<Op> // every operation, in order

    constructor (d: Disk)
      ensures disk == d && made == []
    {
      disk, made := d, [];
    }

    method Step(op: Op)
      modifies this
      ensures disk == Do(old(disk), op) && made == old(made) + [op]
    {
      disk := Do(disk, op);
      made := made + [op];
    }

    /** Make a list of operations, one at a time, after those in `did`. */
    method Steps(ops: seq<Op>, ghost start: Disk, ghost was: seq<Op>, ghost did: seq<Op>) returns (ghost now: seq<Op>)
      requires disk == Exec(start, did) && made == was + did
      modifies this
      ensures now == did + ops && disk == Exec(start, now) && made == was + now
    {
      now := did;
      assert ops[..0] == [] && did + [] == did;
      for i := 0 to |ops|
        invariant now == did + ops[..i] && disk == Exec(start, now) && made == was + now
      {
        Step(ops[i]);
        ExecConcat(start, now, [ops[i]]);
        assert [ops[i]][1..] == [];
        assert ops[..i + 1] == ops[..i] + [ops[i]];
        now := now + [ops[i]];
      }
      assert ops[..|ops|] == ops;
    }

    /** Write the members out until one breaks the unpacking. */
    method Unpack(a: Archive, parts: Path -> seq<Content>, ghost start: Disk, ghost was: seq<Op>, ghost did: seq<Op>)
      returns (names: seq<Path>, broke: bool, ghost now: seq<Op>)
      requires disk == Exec(start, did) && made == was + did
      modifies this
      ensures now == did + StageMembers(parts, Finished(a)) + StageBroken(a, parts) && disk == Exec(start, now) && made == was + now
      ensures broke <==> Breaks(a)
      ensures !broke ==> |names| == |a.members| && forall i :: 0 <= i < |a.members| ==> names[i] == a.members[i].0
    {
      hide StageFile, Exec, BeginFile;
      names, broke, now := [], false, did;
      assert did + [] == did;
      for i := 0 to |a.members|
        invariant |names| == i && forall j :: 0 <= j < i ==> names[j] == a.members[j].0
        invariant Breaks(a) ==> i <= a.ending.at
        invariant now == did + StageMembers(parts, a.members[..i]) && disk == Exec(start, now) && made == was + now
      {
        var m := a.members[i];
        if a.ending.AtMember? && a.ending.at == i {
          broke := true;
          if a.ending.begun {
            now := Steps(BeginFile(parts, m.0), start, was, now);
          } else {
            assert now + [] == now;
          }
          return;
        }
        now := Steps(StageFile(parts, m.0, m.1), start, was, now);
        assert a.members[..i + 1][..i] == a.members[..i];
        assert now == did + StageMembers(parts, a.members[..i + 1]);
        names := names + [m.0];
      }
      assert a.members[..|a.members|] == a.members && now + [] == now;
    }

    /** Keep this server's addresses beside what was unpacked. */
    method KeepAddresses(a: Archive, keep: Option<Content>, parts: Path -> seq<Content>,
                         ghost start: Disk, ghost was: seq<Op>, ghost did: seq<Op>)
      returns (ok: bool, ghost now: seq<Op>)
      requires disk == Exec(start, did) && made == was + did
      modifies this
      ensures now == did + StageStash(a, keep, parts) && disk == Exec(start, now) && made == was + now
      ensures ok <==> !(keep.Some? && a.ending.AtStash?)
    {
      now := did;
      assert did + [] == did;
      ok := keep.None? || !a.ending.AtStash?;
      if keep.Some? && ok {
        now := Steps(StageFile(parts, Stash, keep.value), start, was, did);
      } else if keep.Some? && a.ending.begun {
        now := Steps(BeginFile(parts, Stash), start, was, did);
      }
    }

    /** Unpack an archive into the staging directory, and mark it last; what fails is cleared away. */
    method Restore(a: Archive, keep: Option<Content>, sweep: seq<Path>, late: seq<Path>, parts: Path -> seq<Content>)
      returns (files: Option<seq<Path>>)
      modifies this
      ensures made == old(made) + StagePlan(a, keep, sweep, late, parts)
      ensures disk == Exec(old(disk), StagePlan(a, keep, sweep, late, parts))
      ensures files.Some? <==> Stages(a, keep)
      ensures files.Some? ==> |files.value| == |a.members| && forall i :: 0 <= i < |a.members| ==> files.value[i] == a.members[i].0
    {
      hide Exec, StageFile, BeginFile, StageMembers, StageStash, StageBroken, Drops, Finished;
      ghost var start, was := disk, made;
      ghost var did: seq<Op> := [];
      assert was + did == was && disk == Exec(start, did) by { ExecNothing(start); }
      did := Steps(Drops(sweep), start, was, did);
      assert did == Drops(sweep);
      var names, broke;
      names, broke, did := Unpack(a, parts, start, was, did);
      if broke || names == [] {
        assert did == Unmarked(a, keep, sweep, parts) by { NothingBroken(a, parts); }
        did := Steps(Drops(late), start, was, did);
        assert did == Unmarked(a, keep, sweep, parts) + Marking(a, keep, late, parts);
        return None;
      }
      assert did == Drops(sweep) + StageMembers(parts, Finished(a)) by { NothingBroken(a, parts); }
      var ok;
      ok, did := KeepAddresses(a, keep, parts, start, was, did);
      assert did == Unmarked(a, keep, sweep, parts);
      if !ok {
        did := Steps(Drops(late), start, was, did);
        assert did == Unmarked(a, keep, sweep, parts) + Marking(a, keep, late, parts);
        return None;
      }
      if a.ending.AtMarker? {
        if a.ending.begun {
          did := Steps(BeginFile(parts, Marker), start, was, did);
        }
        did := Steps(Drops(late), start, was, did);
        assert did == Unmarked(a, keep, sweep, parts) + Marking(a, keep, late, parts);
        return None;
      }
      did := Steps(StageFile(parts, Marker, a.name), start, was, did);
      return Some(names);
    }

    /** Look through the listing for the database file and the dump, and decide which is the data. */
    method Decide(run: Run) returns (byFile: bool)
      requires Listing(run.walk, disk.staged)
      ensures byFile == ByFile(run.dbFile, run.driver, disk.staged)
    {
      var hasDb, hasExport := false, false;
      for i := 0 to |run.walk|
        invariant hasDb <==> run.dbFile.Some? && run.dbFile.value in run.walk[..i]
        invariant hasExport <==> Export in run.walk[..i]
      {
        if run.dbFile == Some(run.walk[i]) {
          hasDb := true;
        }
        if run.walk[i] == Export {
          hasExport := true;
        }
      }
      assert run.walk[..|run.walk|] == run.walk;
      byFile := hasDb;
      if hasDb && hasExport && run.driver(disk.staged[Export]) != "sqlite" {
        byFile := false;
      }
    }

    /** Put every entry that goes anywhere in place. */
    method MoveAll(run: Run, byFile: bool, staged: map<Path, Content>, ghost start: Disk, ghost was: seq<Op>)
      returns (ghost now: seq<Op>)
      requires disk == start && made == was && Listing(run.walk, staged)
      modifies this
      ensures now == Moves(run, staged, Routes(staged, byFile), 0) && disk == Exec(start, now) && made == was + now
    {
      ghost var to := Routes(staged, byFile);
      now := [];
      assert was + now == was;
      for i := 0 to |run.walk|
        invariant now == MovesTo(run, staged, to, i) && disk == Exec(start, now) && made == was + now
      {
        var rel := run.walk[i];
        var t := Target(rel, byFile);
        assert rel in to <==> t.Some?;
        if t.Some? {
          now := Steps(Place(run, rel, t.value, staged[rel]), start, was, now);
        } else {
          assert now + [] == now;
        }
      }
      MovesSplit(run, staged, to, |run.walk|);
      assert now + [] == now;
    }

    /** No marker: what is staged is discarded. */
    method Discard(run: Run)
      requires Lists(run, disk) && Marker !in disk.staged
      modifies this
      ensures made == old(made) + ApplyPlan(run, old(disk)) && disk == Exec(old(disk), ApplyPlan(run, old(disk)))
    {
      ghost var start, was := disk, made;
      ghost var none: seq<Op> := [];
      assert was + none == was;
      ghost var did := Steps(Drops(run.sweep), start, was, none);
      assert did == Drops(run.sweep);
    }

    /** The staged files are put in place, the old database's side files removed, and the directory after them. */
    method PutInPlace(run: Run)
      requires Lists(run, disk) && Marker in disk.staged
      modifies this
      ensures made == old(made) + ApplyPlan(run, old(disk)) && disk == Exec(old(disk), ApplyPlan(run, old(disk)))
    {
      hide ByFile, Exec, Moves, Clears, Drops, Routes;
      ghost var start, was := disk, made;
      var byFile := Decide(run);
      ghost var did := MoveAll(run, byFile, disk.staged, start, was);
      did := Steps(Clears(run.sidecars), start, was, did);
      did := Steps(Drops(run.sweep), start, was, did);
      assert did == ApplyPlan(run, start);
    }

    /** Returns the archive's name and this server's addresses as they were kept with it, when there was a
        restore to apply. */
    method ApplyPending(run: Run) returns (archive: Option<Content>, addresses: Option<Content>)
      requires Lists(run, disk)
      modifies this
      ensures made == old(made) + ApplyPlan(run, old(disk))
      ensures disk == Exec(old(disk), ApplyPlan(run, old(disk)))
      ensures archive == Get(old(disk).staged, Marker)
      ensures addresses == if archive.Some? then Get(old(disk).staged, Stash) else None
    {
      hide ApplyPlan, Exec, Lists;
      archive := if Marker in disk.staged then Some(disk.staged[Marker]) else None;
      addresses := None;
      if archive.None? {
        Discard(run);
        return;
      }
      addresses := if Stash in disk.staged then Some(disk.staged[Stash]) else None;
      PutInPlace(run);
    }
  }
}
