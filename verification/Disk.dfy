/**
  The data directory during a restore: the live files and the staging
  directory inside it, changed by one primitive operation at a time. A crash
  leaves the disk as a prefix of the operations made it.
 */
module DataDirectory {
  import opened Prelude

  /** A path in the data directory, by the only tests the restore puts to it (`Classify`). */
  datatype Path =
    | Marker               // .restore-ready, in the staging directory
    | Stash                // .local-addresses.json, in the staging directory
    | Export               // wui-export.json, the portable dump
    | PendingImport        // .restore-import.json, where the dump is left to be loaded
    | Key(name: string)    // anything under keys/
    | Db(name: string)     // any other path ending in .db
    | Sidecar(name: string) // a top-level .db-wal or .db-shm
    | File(name: string)   // everything else

  function Classify(p: string): Path {
    if p == ".restore-ready" then Marker
    else if p == ".local-addresses.json" then Stash
    else if p == "wui-export.json" then Export
    else if p == ".restore-import.json" then PendingImport
    else if "keys/" <= p then Key(p)
    else if HasSuffix(p, ".db") then Db(p)
    else if '/' !in p && (HasSuffix(p, ".db-wal") || HasSuffix(p, ".db-shm")) then Sidecar(p)
    else File(p)
  }

  /** No two file names are taken for one another. */
  lemma ClassifyInjective(p: string, q: string)
    requires Classify(p) == Classify(q)
    ensures p == q
  {
  }

  type Content = seq<Byte>

  datatype Disk = Disk(live: map<Path, Content>, staged: map<Path, Content>)

  datatype Op =
    | Move(src: Path, dst: Path)              // rename a staged file into place
    | PutLive(path: Path, content: Content)   // what a live file holds while it is copied
    | DropLive(path: Path)
    | PutStaged(path: Path, content: Content) // what a staged file holds while it is written
    | DropStaged(path: Path)

  function Do(d: Disk, op: Op): Disk {
    match op
    case Move(src, dst) =>
      if src in d.staged then Disk(d.live[dst := d.staged[src]], d.staged - {src}) else d
    case PutLive(p, c) => d.(live := d.live[p := c])
    case DropLive(p) => d.(live := d.live - {p})
    case PutStaged(p, c) => d.(staged := d.staged[p := c])
    case DropStaged(p) => d.(staged := d.staged - {p})
  }

  function Exec(d: Disk, ops: seq<Op>): Disk
    decreases |ops|
  {
    if ops == [] then d else Exec(Do(d, ops[0]), ops[1..])
  }

  lemma {:induction false} ExecConcat(d: Disk, a: seq<Op>, b: seq<Op>)
    ensures Exec(d, a + b) == Exec(Exec(d, a), b)
    decreases |a|
  {
    if a == [] {
      assert a + b == b;
    } else {
      assert (a + b)[1..] == a[1..] + b;
      ExecConcat(Do(d, a[0]), a[1..], b);
    }
  }

  /** A run of `a` then `b` that stops after `k` operations stopped in `a`, or did all of `a`. */
  lemma ExecPrefix(d: Disk, a: seq<Op>, b: seq<Op>, k: nat)
    requires k <= |a| + |b|
    ensures k <= |a| ==> Exec(d, (a + b)[..k]) == Exec(d, a[..k])
    ensures k >= |a| ==> Exec(d, (a + b)[..k]) == Exec(Exec(d, a), b[..k - |a|])
  {
    if k <= |a| {
      assert (a + b)[..k] == a[..k];
    }
    if k >= |a| {
      assert (a + b)[..k] == a + b[..k - |a|];
      ExecConcat(d, a, b[..k - |a|]);
    }
  }

  function Get(m: map<Path, Content>, p: Path): Option<Content> {
    if p in m then Some(m[p]) else None
  }

  predicate HasSuffix(s: string, t: string) {
    |t| <= |s| && s[|s| - |t|..] == t
  }

  function Drops(names: seq<Path>): (ops: seq<Op>)
    ensures |ops| == |names|
    ensures forall i :: 0 <= i < |ops| ==> ops[i] == DropStaged(names[i])
  {
    seq(|names|, i requires 0 <= i < |names| => DropStaged(names[i]))
  }

  /** Removing staged files one by one leaves the live ones alone. */
  lemma {:induction false} ExecDrops(d: Disk, names: seq<Path>)
    ensures Exec(d, Drops(names)).live == d.live
    ensures Exec(d, Drops(names)).staged == d.staged - (set n | n in names)
    decreases |names|
  {
    if names != [] {
      assert Drops(names)[1..] == Drops(names[1..]);
      var d' := Do(d, DropStaged(names[0]));
      ExecDrops(d', names[1..]);
      assert (set n | n in names) == {names[0]} + (set n | n in names[1..]);
    }
  }
}
