/**
  A table of bytes on a customer's page, users down and tunnels across, summed
  both ways in counters of 64 bits. Files come in a list that can name one
  several times; its bytes are added in only once.
 */
module UsageTable {
  import opened Prelude

  const TWO64 := 0x1_0000_0000_0000_0000

  datatype Device = Device(id: nat, user: nat, name: string, tunnel: string, protocol: string, used: nat)

  datatype Key = Key(user: nat, name: string)

  datatype Row = Row(user: nat, name: string, cells: seq<nat>, total: nat)

  datatype Table = Table(tunnels: seq<string>, rows: seq<Row>, totals: seq<nat>, grand: nat)

  /** A 64-bit addition. */
  function Add64(a: nat, b: nat): nat {
    Wrap(a + b)
  }

  /** What 64 bits keep of a number. */
  function Wrap(n: nat): nat {
    if n < TWO64 then n else Wrap(n - TWO64)
  }

  lemma {:induction false} WrapIsMod(n: nat)
    ensures Wrap(n) == n % TWO64
    decreases n
  {
    if n >= TWO64 {
      WrapIsMod(n - TWO64);
    }
  }

  // ---- which files, which row and which column ----

  /** The entries whose id has not come before. */
  function Files(es: seq<Device>): seq<Device> {
    if es == [] then []
    else
      var init, d := es[..|es| - 1], es[|es| - 1];
      if Has(init, d.id) then Files(init) else Files(init) + [d]
  }

  predicate Has(ds: seq<Device>, id: nat) {
    exists i :: 0 <= i < |ds| && ds[i].id == id
  }

  function Unnumbered(ds: seq<Device>, tunnel: string): nat {
    if ds == [] then 0
    else Unnumbered(ds[..|ds| - 1], tunnel) + (if ds[|ds| - 1].user == 0 && ds[|ds| - 1].tunnel == tunnel then 1 else 0)
  }

  /** Some tunnel holds several files with no user number, so each is a row under its own name. */
  ghost predicate Named(ds: seq<Device>) {
    exists t :: Unnumbered(ds, t) > 1
  }

  function RowOf(d: Device, named: bool): Key {
    Key(d.user, if d.user == 0 && named then d.name else "")
  }

  function ColumnOf(d: Device): string {
    if d.tunnel == "" then d.protocol else d.tunnel
  }

  // ---- sums ----

  function UsedIn(ds: seq<Device>, named: bool, k: Key, c: string): nat {
    if ds == [] then 0
    else
      var d := ds[|ds| - 1];
      UsedIn(ds[..|ds| - 1], named, k, c) + (if RowOf(d, named) == k && ColumnOf(d) == c then d.used else 0)
  }

  function Total(ds: seq<Device>): nat {
    if ds == [] then 0 else Total(ds[..|ds| - 1]) + ds[|ds| - 1].used
  }

  function RowSum(ds: seq<Device>, named: bool, k: Key, cs: seq<string>): nat {
    if cs == [] then 0 else RowSum(ds, named, k, cs[..|cs| - 1]) + UsedIn(ds, named, k, cs[|cs| - 1])
  }

  function ColumnSum(ds: seq<Device>, named: bool, ks: seq<Key>, c: string): nat {
    if ks == [] then 0 else ColumnSum(ds, named, ks[..|ks| - 1], c) + UsedIn(ds, named, ks[|ks| - 1], c)
  }

  function SumOfRows(ds: seq<Device>, named: bool, ks: seq<Key>, cs: seq<string>): nat {
    if ks == [] then 0 else SumOfRows(ds, named, ks[..|ks| - 1], cs) + RowSum(ds, named, ks[|ks| - 1], cs)
  }

  function SumOfColumns(ds: seq<Device>, named: bool, ks: seq<Key>, cs: seq<string>): nat {
    if cs == [] then 0 else SumOfColumns(ds, named, ks, cs[..|cs| - 1]) + ColumnSum(ds, named, ks, cs[|cs| - 1])
  }

  predicate Distinct<T(==)>(l: seq<T>) {
    forall i, j :: 0 <= i < j < |l| ==> l[i] != l[j]
  }

  lemma {:induction false} RowSumGrows(ds: seq<Device>, d: Device, named: bool, k: Key, cs: seq<string>)
    requires Distinct(cs)
    ensures RowSum(ds + [d], named, k, cs)
         == RowSum(ds, named, k, cs) + (if RowOf(d, named) == k && ColumnOf(d) in cs then d.used else 0)
  {
    if cs != [] {
      var c := cs[|cs| - 1];
      RowSumGrows(ds, d, named, k, cs[..|cs| - 1]);
      assert (ds + [d])[..|ds|] == ds;
      assert c !in cs[..|cs| - 1];
      assert cs == cs[..|cs| - 1] + [c];
    }
  }

  /** One more file adds its bytes to the sum of the rows once, when its row and its column are there. */
  lemma {:induction false} SumOfRowsGrows(ds: seq<Device>, d: Device, named: bool, ks: seq<Key>, cs: seq<string>)
    requires Distinct(cs) && Distinct(ks)
    ensures SumOfRows(ds + [d], named, ks, cs)
         == SumOfRows(ds, named, ks, cs) + (if RowOf(d, named) in ks && ColumnOf(d) in cs then d.used else 0)
  {
    if ks != [] {
      var k := ks[|ks| - 1];
      SumOfRowsGrows(ds, d, named, ks[..|ks| - 1], cs);
      RowSumGrows(ds, d, named, k, cs);
      assert k !in ks[..|ks| - 1];
      assert ks == ks[..|ks| - 1] + [k];
    }
  }

  lemma {:induction false} RowSumEmpty(named: bool, k: Key, cs: seq<string>)
    ensures RowSum([], named, k, cs) == 0
  {
    if cs != [] {
      RowSumEmpty(named, k, cs[..|cs| - 1]);
    }
  }

  lemma {:induction false} SumOfRowsEmpty(named: bool, ks: seq<Key>, cs: seq<string>)
    ensures SumOfRows([], named, ks, cs) == 0
  {
    if ks != [] {
      SumOfRowsEmpty(named, ks[..|ks| - 1], cs);
      RowSumEmpty(named, ks[|ks| - 1], cs);
    }
  }

  /** Every file's row and column are there. */
  predicate Covered(ds: seq<Device>, named: bool, ks: seq<Key>, cs: seq<string>) {
    forall i :: 0 <= i < |ds| ==> RowOf(ds[i], named) in ks && ColumnOf(ds[i]) in cs
  }

  /** The rows add up to what the files used. */
  lemma {:induction false} RowsAddUp(ds: seq<Device>, named: bool, ks: seq<Key>, cs: seq<string>)
    requires Distinct(cs) && Distinct(ks) && Covered(ds, named, ks, cs)
    ensures SumOfRows(ds, named, ks, cs) == Total(ds)
  {
    if ds == [] {
      SumOfRowsEmpty(named, ks, cs);
    } else {
      var init := ds[..|ds| - 1];
      RowsAddUp(init, named, ks, cs);
      SumOfRowsGrows(init, ds[|ds| - 1], named, ks, cs);
      assert ds == init + [ds[|ds| - 1]];
    }
  }

  lemma {:induction false} SumOfColumnsNoRows(ds: seq<Device>, named: bool, cs: seq<string>)
    ensures SumOfColumns(ds, named, [], cs) == 0
  {
    if cs != [] {
      SumOfColumnsNoRows(ds, named, cs[..|cs| - 1]);
    }
  }

  lemma {:induction false} OneMoreRow(ds: seq<Device>, named: bool, ks: seq<Key>, k: Key, cs: seq<string>)
    ensures SumOfColumns(ds, named, ks + [k], cs) == SumOfColumns(ds, named, ks, cs) + RowSum(ds, named, k, cs)
  {
    if cs != [] {
      OneMoreRow(ds, named, ks, k, cs[..|cs| - 1]);
      assert (ks + [k])[..|ks|] == ks;
    }
  }

  /** A grid adds up the same by rows and by columns. */
  lemma {:induction false} BothWays(ds: seq<Device>, named: bool, ks: seq<Key>, cs: seq<string>)
    ensures SumOfColumns(ds, named, ks, cs) == SumOfRows(ds, named, ks, cs)
  {
    if ks == [] {
      SumOfColumnsNoRows(ds, named, cs);
    } else {
      var init := ks[..|ks| - 1];
      BothWays(ds, named, init, cs);
      OneMoreRow(ds, named, init, ks[|ks| - 1], cs);
      assert ks == init + [ks[|ks| - 1]];
    }
  }

  // ---- each file once ----

  lemma HasOneMore(ds: seq<Device>, d: Device, id: nat)
    ensures Has(ds + [d], id) <==> Has(ds, id) || d.id == id
  {
    var all := ds + [d];
    if Has(ds, id) {
      var i :| 0 <= i < |ds| && ds[i].id == id;
      assert all[i].id == id;
    }
    if d.id == id {
      assert all[|ds|].id == id;
    }
  }

  /** Every id listed is a file, and no other is. */
  lemma {:induction false} FilesHaveIds(es: seq<Device>, id: nat)
    ensures Has(Files(es), id) <==> Has(es, id)
  {
    if es != [] {
      var init, d := es[..|es| - 1], es[|es| - 1];
      FilesHaveIds(init, id);
      HasOneMore(init, d, id);
      HasOneMore(Files(init), d, id);
      assert es == init + [d];
    }
  }

  /** No id is a file twice, and a file is one of its entries. */
  lemma {:induction false} FilesOnce(es: seq<Device>)
    ensures forall i, j :: 0 <= i < j < |Files(es)| ==> Files(es)[i].id != Files(es)[j].id
    ensures forall i :: 0 <= i < |Files(es)| ==> Files(es)[i] in es
  {
    if es != [] {
      var init, d := es[..|es| - 1], es[|es| - 1];
      FilesOnce(init);
      FilesHaveIds(init, d.id);
      assert es == init + [d];
    }
  }

  // ---- the table as it is built ----

  lemma {:induction false} WrapPlus(a: nat, b: nat)
    ensures Wrap(Wrap(a) + b) == Wrap(a + b)
  {
    if a >= TWO64 {
      WrapPlus(a - TWO64, b);
    }
  }

  lemma WrapAdds(a: nat, b: nat)
    ensures Add64(Wrap(a), b) == Wrap(a + b) == Add64(Wrap(a), Wrap(b))
  {
    WrapPlus(a, b);
    WrapPlus(b, Wrap(a));
  }

  method DistinctFiles(es: seq<Device>) returns (ds: seq<Device>)
    ensures ds == Files(es)
  {
    ds := [];
    var counted: set<nat> := {};
    for i := 0 to |es|
      invariant ds == Files(es[..i])
      invariant forall n :: n in counted <==> exists j :: 0 <= j < i && es[j].id == n
    {
      assert es[..i + 1][..i] == es[..i];
      assert Has(es[..i], es[i].id) <==> es[i].id in counted by {
        if es[i].id in counted {
          var j :| 0 <= j < i && es[j].id == es[i].id;
          assert es[..i][j].id == es[i].id;
        }
      }
      if es[i].id !in counted {
        counted := counted + {es[i].id};
        ds := ds + [es[i]];
      }
    }
    assert es[..|es|] == es;
  }

  method FindNamed(ds: seq<Device>) returns (named: bool)
    ensures named <==> Named(ds)
  {
    var counts: map<string, nat> := map[];
    named := false;
    for i := 0 to |ds|
      invariant forall t :: (if t in counts then counts[t] else 0) == Unnumbered(ds[..i], t)
      invariant named <==> exists t :: t in counts && counts[t] > 1
    {
      assert ds[..i + 1][..i] == ds[..i];
      var d := ds[i];
      if d.user == 0 {
        var n := (if d.tunnel in counts then counts[d.tunnel] else 0) + 1;
        ghost var before := counts;
        counts := counts[d.tunnel := n];
        if n > 1 {
          assert d.tunnel in counts && counts[d.tunnel] > 1;
          named := true;
        } else {
          assert forall t :: t in before && before[t] > 1 ==> t in counts && counts[t] > 1;
        }
      }
    }
    assert ds[..|ds|] == ds;
    assert forall t :: Unnumbered(ds, t) > 1 ==> t in counts && counts[t] > 1;
  }

  /** What the columns and the cells are after some of the files. */
  ghost predicate Filled(ds: seq<Device>, named: bool, tunnels: seq<string>, order: seq<Key>, cells: map<Key, map<nat, nat>>) {
    && Distinct(tunnels) && Distinct(order) && Covered(ds, named, order, tunnels)
    && (forall k :: k in cells <==> k in order)
    && (forall k, c :: k in cells && c in cells[k] ==> c < |tunnels|)
    && (forall k, c :: k in cells && 0 <= c < |tunnels| ==>
          CellOf(cells, k, c) == Wrap(UsedIn(ds, named, k, tunnels[c])))
  }

  function CellOf(cells: map<Key, map<nat, nat>>, k: Key, c: nat): nat
    requires k in cells
  {
    if c in cells[k] then cells[k][c] else 0
  }

  function Counted(cells: map<Key, map<nat, nat>>, k: Key, c: nat, bytes: nat): map<Key, map<nat, nat>>
    requires k in cells
  {
    var row: map<nat, nat> := cells[k];
    var n: nat := Add64(CellOf(cells, k, c), bytes);
    var row': map<nat, nat> := row[c := n];
    cells[k := row']
  }

  lemma {:induction false} UnusedRow(ds: seq<Device>, named: bool, ks: seq<Key>, cs: seq<string>, k: Key, c: string)
    requires Covered(ds, named, ks, cs) && (k !in ks || c !in cs)
    ensures UsedIn(ds, named, k, c) == 0
  {
    if ds != [] {
      UnusedRow(ds[..|ds| - 1], named, ks, cs, k, c);
    }
  }

  /** A column or a row that was not there before holds nothing yet. */
  lemma AddColumn(ds: seq<Device>, named: bool, tunnels: seq<string>, order: seq<Key>, cells: map<Key, map<nat, nat>>, t: string)
    requires Filled(ds, named, tunnels, order, cells) && t !in tunnels
    ensures Filled(ds, named, tunnels + [t], order, cells)
  {
    forall k, c | k in cells && 0 <= c < |tunnels + [t]|
      ensures CellOf(cells, k, c) == Wrap(UsedIn(ds, named, k, (tunnels + [t])[c]))
    {
      if c == |tunnels| {
        UnusedRow(ds, named, order, tunnels, k, t);
      }
    }
  }

  lemma AddRow(ds: seq<Device>, named: bool, tunnels: seq<string>, order: seq<Key>, cells: map<Key, map<nat, nat>>, k: Key)
    requires Filled(ds, named, tunnels, order, cells) && k !in order
    ensures Filled(ds, named, tunnels, order + [k], cells[k := map[]])
  {
    var cells' := cells[k := map[]];
    forall j, c | j in cells' && 0 <= c < |tunnels|
      ensures CellOf(cells', j, c) == Wrap(UsedIn(ds, named, j, tunnels[c]))
    {
      if j == k {
        UnusedRow(ds, named, order, tunnels, k, tunnels[c]);
      } else {
        assert CellOf(cells', j, c) == CellOf(cells, j, c);
      }
    }
  }

  lemma AddBytesAt(ds: seq<Device>, d: Device, named: bool, tunnels: seq<string>, order: seq<Key>, cells: map<Key, map<nat, nat>>, c: nat,
                   j: Key, e: nat)
    requires Filled(ds, named, tunnels, order, cells) && j in cells && e < |tunnels|
    requires RowOf(d, named) in order && c < |tunnels| && tunnels[c] == ColumnOf(d)
    ensures CellOf(Counted(cells, RowOf(d, named), c, d.used), j, e) == Wrap(UsedIn(ds + [d], named, j, tunnels[e]))
  {
    var k := RowOf(d, named);
    assert (ds + [d])[..|ds|] == ds;
    assert CellOf(cells, j, e) == Wrap(UsedIn(ds, named, j, tunnels[e]));
    if j == k && e == c {
      WrapAdds(UsedIn(ds, named, k, tunnels[c]), d.used);
      assert CellOf(Counted(cells, k, c, d.used), j, e) == Add64(CellOf(cells, j, e), d.used);
    } else {
      assert CellOf(Counted(cells, k, c, d.used), j, e) == CellOf(cells, j, e);
      assert j == k ==> tunnels[e] != tunnels[c];
    }
  }

  lemma AddBytes(ds: seq<Device>, d: Device, named: bool, tunnels: seq<string>, order: seq<Key>, cells: map<Key, map<nat, nat>>, c: nat)
    requires Filled(ds, named, tunnels, order, cells)
    requires RowOf(d, named) in order && c < |tunnels| && tunnels[c] == ColumnOf(d)
    ensures var k := RowOf(d, named);
            Filled(ds + [d], named, tunnels, order, Counted(cells, k, c, d.used))
  {
    var cells' := Counted(cells, RowOf(d, named), c, d.used);
    forall j, e | j in cells' && 0 <= e < |tunnels|
      ensures CellOf(cells', j, e) == Wrap(UsedIn(ds + [d], named, j, tunnels[e]))
    {
      AddBytesAt(ds, d, named, tunnels, order, cells, c, j, e);
    }
  }

  method FillCells(ds: seq<Device>, named: bool) returns (tunnels: seq<string>, order: seq<Key>, cells: map<Key, map<nat, nat>>)
    ensures Filled(ds, named, tunnels, order, cells)
  {
    tunnels, order, cells := [], [], map[];
    var col: map<string, nat> := map[];
    for i := 0 to |ds|
      invariant Filled(ds[..i], named, tunnels, order, cells)
      invariant forall t :: t in col <==> t in tunnels
      invariant forall t :: t in col ==> col[t] < |tunnels| && tunnels[col[t]] == t
    {
      var d := ds[i];
      var t := ColumnOf(d);
      if t !in col {
        AddColumn(ds[..i], named, tunnels, order, cells, t);
        col := col[t := |tunnels|];
        tunnels := tunnels + [t];
      }
      var c := col[t];
      var k := RowOf(d, named);
      if k !in cells {
        AddRow(ds[..i], named, tunnels, order, cells, k);
        cells := cells[k := map[]];
        order := order + [k];
      }
      AddBytes(ds[..i], d, named, tunnels, order, cells, c);
      assert ds[..i] + [d] == ds[..i + 1];
      cells := Counted(cells, k, c, d.used);
    }
    assert ds[..|ds|] == ds;
  }

  /** The sums of the columns over the rows so far. */
  ghost predicate ColumnsSoFar(ds: seq<Device>, named: bool, ks: seq<Key>, tunnels: seq<string>, sums: seq<nat>) {
    |sums| == |tunnels| && forall c :: 0 <= c < |tunnels| ==> sums[c] == Wrap(ColumnSum(ds, named, ks, tunnels[c]))
  }

  /** One more cell of a row, added along both edges. */
  lemma OneMoreCell(ds: seq<Device>, named: bool, ks: seq<Key>, k: Key, tunnels: seq<string>, c: nat)
    requires c < |tunnels|
    ensures var n := Wrap(UsedIn(ds, named, k, tunnels[c]));
            && Add64(Wrap(RowSum(ds, named, k, tunnels[..c])), n) == Wrap(RowSum(ds, named, k, tunnels[..c + 1]))
            && Add64(Wrap(ColumnSum(ds, named, ks, tunnels[c])), n) == Wrap(ColumnSum(ds, named, ks + [k], tunnels[c]))
  {
    assert tunnels[..c + 1][..c] == tunnels[..c];
    WrapAdds(RowSum(ds, named, k, tunnels[..c]), UsedIn(ds, named, k, tunnels[c]));
    assert (ks + [k])[..|ks|] == ks;
    WrapAdds(ColumnSum(ds, named, ks, tunnels[c]), UsedIn(ds, named, k, tunnels[c]));
  }

  /** The first c cells of a row are written, and added along both edges. */
  ghost predicate RowSoFar(ds: seq<Device>, named: bool, ks: seq<Key>, k: Key, tunnels: seq<string>, c: nat,
                           row: seq<nat>, total: nat, sums: seq<nat>)
    requires c <= |tunnels|
  {
    && |row| == c && (forall e :: 0 <= e < c ==> row[e] == Wrap(UsedIn(ds, named, k, tunnels[e])))
    && total == Wrap(RowSum(ds, named, k, tunnels[..c]))
    && |sums| == |tunnels|
    && (forall e :: 0 <= e < c ==> sums[e] == Wrap(ColumnSum(ds, named, ks + [k], tunnels[e])))
    && (forall e :: c <= e < |tunnels| ==> sums[e] == Wrap(ColumnSum(ds, named, ks, tunnels[e])))
  }

  lemma RowNext(ds: seq<Device>, named: bool, ks: seq<Key>, k: Key, tunnels: seq<string>, c: nat, row: seq<nat>, total: nat, sums: seq<nat>)
    requires c < |tunnels| && RowSoFar(ds, named, ks, k, tunnels, c, row, total, sums)
    ensures var n := Wrap(UsedIn(ds, named, k, tunnels[c]));
            RowSoFar(ds, named, ks, k, tunnels, c + 1, row + [n], Add64(total, n), sums[c := Add64(sums[c], n)])
  {
    OneMoreCell(ds, named, ks, k, tunnels, c);
  }

  method SumRow(ds: seq<Device>, named: bool, tunnels: seq<string>, order: seq<Key>, cells: map<Key, map<nat, nat>>,
                k: Key, ghost ks: seq<Key>, sums: seq<nat>)
    returns (row: seq<nat>, total: nat, sums': seq<nat>)
    requires Filled(ds, named, tunnels, order, cells) && k in order && ColumnsSoFar(ds, named, ks, tunnels, sums)
    ensures |row| == |tunnels| && forall c :: 0 <= c < |tunnels| ==> row[c] == Wrap(UsedIn(ds, named, k, tunnels[c]))
    ensures total == Wrap(RowSum(ds, named, k, tunnels))
    ensures ColumnsSoFar(ds, named, ks + [k], tunnels, sums')
  {
    row, total, sums' := [], 0, sums;
    for c := 0 to |tunnels|
      invariant RowSoFar(ds, named, ks, k, tunnels, c, row, total, sums')
    {
      var n := CellOf(cells, k, c);
      RowNext(ds, named, ks, k, tunnels, c, row, total, sums');
      row := row + [n];
      total := Add64(total, n);
      sums' := sums'[c := Add64(sums'[c], n)];
    }
    assert tunnels[..|tunnels|] == tunnels;
  }

  /** One row says what its files used. */
  ghost predicate RowSays(row: Row, ds: seq<Device>, named: bool, k: Key, tunnels: seq<string>, customer: string) {
    && row.user == k.user && row.name == (if k == Key(0, "") then customer else k.name)
    && |row.cells| == |tunnels| && row.total == Wrap(RowSum(ds, named, k, tunnels))
    && (forall c :: 0 <= c < |tunnels| ==> row.cells[c] == Wrap(UsedIn(ds, named, k, tunnels[c])))
  }

  /** What the table says of the files: a row and a column for each, in the order they first came; each
      cell the bytes of its files; and edges that add the cells up. */
  ghost predicate Describes(t: Table, ds: seq<Device>, named: bool, order: seq<Key>, customer: string) {
    && Distinct(t.tunnels) && Distinct(order) && Covered(ds, named, order, t.tunnels)
    && |t.rows| == |order| && |t.totals| == |t.tunnels|
    && (forall r :: 0 <= r < |order| ==> RowSays(t.rows[r], ds, named, order[r], t.tunnels, customer))
    && (forall c :: 0 <= c < |t.tunnels| ==> t.totals[c] == Wrap(ColumnSum(ds, named, order, t.tunnels[c])))
    && t.grand == Wrap(Total(ds))
  }

  /** The rows of the first keys, with the edges so far. */
  ghost predicate RowsSoFar(ds: seq<Device>, named: bool, keys: seq<Key>, tunnels: seq<string>, customer: string,
                            rows: seq<Row>, sums: seq<nat>, grand: nat) {
    && |rows| == |keys| && (forall q :: 0 <= q < |keys| ==> RowSays(rows[q], ds, named, keys[q], tunnels, customer))
    && ColumnsSoFar(ds, named, keys, tunnels, sums)
    && grand == Wrap(SumOfRows(ds, named, keys, tunnels))
  }

  lemma RowsNext(ds: seq<Device>, named: bool, keys: seq<Key>, k: Key, tunnels: seq<string>, customer: string,
                 rows: seq<Row>, sums: seq<nat>, grand: nat, row: Row, sums': seq<nat>)
    requires RowsSoFar(ds, named, keys, tunnels, customer, rows, sums, grand)
    requires RowSays(row, ds, named, k, tunnels, customer) && ColumnsSoFar(ds, named, keys + [k], tunnels, sums')
    ensures RowsSoFar(ds, named, keys + [k], tunnels, customer, rows + [row], sums', Add64(grand, row.total))
  {
    assert (keys + [k])[..|keys|] == keys;
    WrapAdds(SumOfRows(ds, named, keys, tunnels), RowSum(ds, named, k, tunnels));
    forall q | 0 <= q < |keys + [k]| ensures RowSays((rows + [row])[q], ds, named, (keys + [k])[q], tunnels, customer) {
      assert q < |keys| ==> RowSays(rows[q], ds, named, keys[q], tunnels, customer);
    }
  }

  method SumRows(ds: seq<Device>, named: bool, tunnels: seq<string>, keys: seq<Key>, cells: map<Key, map<nat, nat>>, customer: string)
    returns (rows: seq<Row>, sums: seq<nat>, grand: nat)
    requires Filled(ds, named, tunnels, keys, cells)
    ensures RowsSoFar(ds, named, keys, tunnels, customer, rows, sums, grand)
  {
    rows, sums, grand := [], seq(|tunnels|, _ => 0), 0;
    assert keys[..0] == [];
    for r := 0 to |keys|
      invariant RowsSoFar(ds, named, keys[..r], tunnels, customer, rows, sums, grand)
    {
      var k := keys[r];
      assert keys[..r + 1] == keys[..r] + [k];
      ghost var before := sums;
      var cs, total;
      cs, total, sums := SumRow(ds, named, tunnels, keys, cells, k, keys[..r], sums);
      var row := Row(k.user, if k.user == 0 && k.name == "" then customer else k.name, cs, total);
      RowsNext(ds, named, keys[..r], k, tunnels, customer, rows, before, grand, row, sums);
      grand := Add64(grand, total);
      rows := rows + [row];
    }
    assert keys[..|keys|] == keys;
  }

  method BuildTable(es: seq<Device>, customer: string) returns (u: Option<Table>, ghost order: seq<Key>)
    ensures u.None? <==> es == []
    ensures u.Some? ==> Describes(u.value, Files(es), Named(Files(es)), order, customer)
  {
    var ds := DistinctFiles(es);
    order := [];
    if ds == [] {
      if es != [] {
        FilesHaveIds(es, es[0].id);
      }
      return None, order;
    }
    var named := FindNamed(ds);
    var tunnels, keys, cells := FillCells(ds, named);
    order := keys;
    var rows, sums, grand := SumRows(ds, named, tunnels, keys, cells, customer);
    RowsAddUp(ds, named, keys, tunnels);
    u := Some(Table(tunnels, rows, sums, grand));
  }

  // ---- conservation ----

  function Sum64(ns: seq<nat>): nat {
    if ns == [] then 0 else Add64(Sum64(ns[..|ns| - 1]), ns[|ns| - 1])
  }

  function RowTotals(rows: seq<Row>): (ns: seq<nat>)
    ensures |ns| == |rows|
  {
    seq(|rows|, i requires 0 <= i < |rows| => rows[i].total)
  }

  lemma {:induction false} RowTotalsSum(ds: seq<Device>, named: bool, ks: seq<Key>, cs: seq<string>, ns: seq<nat>)
    requires |ns| == |ks| && forall r :: 0 <= r < |ks| ==> ns[r] == Wrap(RowSum(ds, named, ks[r], cs))
    ensures Sum64(ns) == Wrap(SumOfRows(ds, named, ks, cs))
  {
    if ks != [] {
      var n := |ks| - 1;
      RowTotalsSum(ds, named, ks[..n], cs, ns[..n]);
      WrapAdds(SumOfRows(ds, named, ks[..n], cs), RowSum(ds, named, ks[n], cs));
    }
  }

  lemma {:induction false} ColumnTotalsSum(ds: seq<Device>, named: bool, ks: seq<Key>, cs: seq<string>, ns: seq<nat>)
    requires |ns| == |cs| && forall c :: 0 <= c < |cs| ==> ns[c] == Wrap(ColumnSum(ds, named, ks, cs[c]))
    ensures Sum64(ns) == Wrap(SumOfColumns(ds, named, ks, cs))
  {
    if cs != [] {
      var n := |cs| - 1;
      ColumnTotalsSum(ds, named, ks, cs[..n], ns[..n]);
      WrapAdds(SumOfColumns(ds, named, ks, cs[..n]), ColumnSum(ds, named, ks, cs[n]));
    }
  }

  /** The grand total is the sum of the row totals, of the column totals, and of the bytes of the
      distinct files, all in 64 bits, wrapped or not. */
  lemma GrandTotalConserved(t: Table, es: seq<Device>, order: seq<Key>, customer: string)
    requires Describes(t, Files(es), Named(Files(es)), order, customer)
    ensures t.grand == Sum64(RowTotals(t.rows)) == Sum64(t.totals) == Wrap(Total(Files(es)))
  {
    var ds, named := Files(es), Named(Files(es));
    RowTotalsSum(ds, named, order, t.tunnels, RowTotals(t.rows));
    ColumnTotalsSum(ds, named, order, t.tunnels, t.totals);
    RowsAddUp(ds, named, order, t.tunnels);
    BothWays(ds, named, order, t.tunnels);
  }
}
