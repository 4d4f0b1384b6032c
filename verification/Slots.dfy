/**
  Sharing on a customer's page: a guide's common text is kept once, with
  numbered slots, and the page's script fills them in for each file.
 */
module Slots {
  import opened Prelude
  import ListField

  /** How many digits a text starts with. */
  function Digits(t: string): (n: nat)
    ensures n <= |t| && forall i :: 0 <= i < n ==> ListField.Digit(t[i])
    ensures n < |t| ==> !ListField.Digit(t[n])
  {
    if t == [] || !ListField.Digit(t[0]) then 0 else 1 + Digits(t[1..])
  }

  const MARK := "@@"

  /** The length of the slot a text starts with, 0 for none: two at-signs, digits, two at-signs. */
  function SlotLen(t: string): (n: nat)
    ensures n <= |t| && (n > 0 ==> n >= 5)
    ensures n > 0 ==> t[..2] == MARK && n == Digits(t[2..]) + 4 && t[n - 2..n] == MARK
  {
    if |t| < 5 || t[..2] != MARK then 0
    else
      var d := Digits(t[2..]);
      if d > 0 && d + 4 <= |t| && t[d + 2..d + 4] == MARK then d + 4 else 0
  }

  function SlotNumber(t: string): nat
    requires SlotLen(t) > 0
  {
    var d := Digits(t[2..]);
    assert forall i :: 0 <= i < d ==> t[2..d + 2][i] == t[2..][i];
    ListField.Value(t[2..d + 2])
  }

  /** The script's replacement, slot by slot from the left; what a slot is replaced by is not looked at again. */
  function Fill(t: string, vals: seq<string>): string
    decreases |t|
  {
    if t == [] then []
    else if SlotLen(t) > 0 then
      (var n := SlotNumber(t); if n < |vals| then vals[n] else "") + Fill(t[SlotLen(t)..], vals)
    else [t[0]] + Fill(t[1..], vals)
  }

  /** The mark of a slot. */
  function Slot(n: nat): string {
    MARK + ListField.Decimal(n) + MARK
  }

  predicate HasSlot(t: string)
    decreases |t|
  {
    t != [] && (SlotLen(t) > 0 || HasSlot(t[1..]))
  }

  lemma {:induction false} DigitsOf(d: string, rest: string)
    requires (forall i :: 0 <= i < |d| ==> ListField.Digit(d[i])) && (rest == [] || !ListField.Digit(rest[0]))
    ensures Digits(d + rest) == |d|
  {
    if d == [] {
      assert d + rest == rest;
    } else {
      assert (d + rest)[1..] == d[1..] + rest;
      DigitsOf(d[1..], rest);
    }
  }

  /** A slot's mark is read as that slot, whatever follows it. */
  lemma SlotIsRead(n: nat, rest: string)
    ensures SlotLen(Slot(n) + rest) == |Slot(n)| && SlotNumber(Slot(n) + rest) == n
  {
    var d := ListField.Decimal(n);
    var t := Slot(n) + rest;
    assert forall i :: 0 <= i < |d| ==> ListField.Digit(d[i]);
    assert t[2..] == d + (MARK + rest);
    assert (MARK + rest)[0] == '@';
    DigitsOf(d, MARK + rest);
    assert t[..2] == MARK && t[|d| + 2..|d| + 4] == MARK;
    assert t[2..|d| + 2] == d;
    ListField.ValueOfDecimal(n);
  }

  /** A slot's mark becomes its value, taken as it is: a value that looks like a slot is not filled again. */
  lemma FillSlot(n: nat, vals: seq<string>, rest: string)
    requires n < |vals|
    ensures Fill(Slot(n) + rest, vals) == vals[n] + Fill(rest, vals)
  {
    SlotIsRead(n, rest);
    assert (Slot(n) + rest)[|Slot(n)|..] == rest;
  }

  /** Text with no slot in it is left alone. */
  lemma {:induction false} FillFixed(t: string, vals: seq<string>)
    requires !HasSlot(t)
    ensures Fill(t, vals) == t
    decreases |t|
  {
    if t != [] {
      FillFixed(t[1..], vals);
      assert t == [t[0]] + t[1..];
    }
  }

  lemma Regroup(c: char, a: string, b: string)
    ensures ([c] + a) + b == [c] + (a + b)
  {
  }

  /** No slot starts in `before` when `t` follows it. */
  predicate Clear(before: string, t: string) {
    before == [] || (SlotLen(before + t) == 0 && Clear(before[1..], t))
  }

  lemma ClearStep(before: string, t: string, vals: seq<string>)
    requires before != [] && SlotLen(before + t) == 0
    ensures Fill(before + t, vals) == [before[0]] + Fill(before[1..] + t, vals)
  {
    assert (before + t)[1..] == before[1..] + t;
  }

  /** Nothing happens to text in which no slot starts, whatever follows it. */
  lemma {:induction false} FillAfter(before: string, t: string, vals: seq<string>)
    requires Clear(before, t)
    ensures Fill(before + t, vals) == before + Fill(t, vals)
  {
    hide Fill, SlotLen;
    if before == [] {
      assert before + t == t && before + Fill(t, vals) == Fill(t, vals);
    } else {
      FillAfter(before[1..], t, vals);
      ClearStep(before, t, vals);
      assert before == [before[0]] + before[1..];
      Regroup(before[0], before[1..], Fill(t, vals));
    }
  }

  /** Every slot filled with the letter x, up to a number. */
  function Letters(n: nat): seq<string> {
    seq(n, _ => "x")
  }

  /** Where a slot starts inside a text, some stub's values change that text: its at-sign is gone. */
  lemma {:induction false} UnclearIsFilled(before: string, t: string, k: nat) returns (vals: seq<string>)
    requires !Clear(before, t)
    ensures |vals| > k && !(before <= Fill(before + t, vals))
  {
    hide Fill, SlotLen;
    if SlotLen(before + t) > 0 {
      vals := StartIsFilled(before, t, k);
    } else {
      vals := UnclearIsFilled(before[1..], t, k);
      ClearStep(before, t, vals);
      var later := Fill(before[1..] + t, vals);
      assert ([before[0]] + later)[1..] == later;
    }
  }

  lemma AtSignFirst(t: string)
    ensures SlotLen(t) > 0 ==> t[0] == '@'
  {
    if SlotLen(t) > 0 {
      assert t[..2][0] == '@';
    }
  }

  lemma StartIsFilled(before: string, t: string, k: nat) returns (vals: seq<string>)
    requires before != [] && SlotLen(before + t) > 0
    ensures |vals| > k && !(before <= Fill(before + t, vals))
  {
    var n := SlotNumber(before + t);
    vals := Letters(n + k + 1);
    AtSignFirst(before + t);
    assert (before + t)[0] == before[0];
    assert Fill(before + t, vals)[0] == 'x';
  }

  /** A slot that stands inside a text, as in an attribute's value, is filled there and the text around it
      is left to itself, for every stub's values, exactly when no slot starts in what is before it. */
  lemma FillWithinExactlyWhen(before: string, n: nat, after: string)
    ensures (forall vals: seq<string> :: n < |vals| ==>
               Fill(before + (Slot(n) + after), vals) == before + (vals[n] + Fill(after, vals)))
            <==> Clear(before, Slot(n) + after)
  {
    hide Fill, Clear, Slot;
    var t := Slot(n) + after;
    if Clear(before, t) {
      forall vals: seq<string> | n < |vals| ensures Fill(before + t, vals) == before + (vals[n] + Fill(after, vals)) {
        FillAfter(before, t, vals);
        FillSlot(n, vals, after);
      }
    } else {
      var vals := UnclearIsFilled(before, t, n);
      assert before <= before + (vals[n] + Fill(after, vals));
    }
  }

  lemma {:induction false} SlotIsUnclear(t: string)
    ensures HasSlot(t) <==> !Clear(t, [])
  {
    assert t + [] == t;
    if t != [] {
      SlotIsUnclear(t[1..]);
    }
  }

  /** A fixed text is safe from the values of every stub that has some, which are those the script fills,
      exactly when no slot can be read in it. */
  lemma FixedExactlyWhenNoSlot(t: string)
    ensures (forall vals :: vals != [] ==> Fill(t, vals) == t) <==> !HasSlot(t)
  {
    if HasSlot(t) {
      SlotIsUnclear(t);
      var vals := UnclearIsFilled(t, [], 0);
      assert t + [] == t && Fill(t, vals) != t;
    } else {
      forall vals: seq<string> | vals != [] ensures Fill(t, vals) == t {
        FillFixed(t, vals);
      }
    }
  }

  /** Text without an at-sign is never in the way. */
  lemma {:induction false} PlainIsClear(before: string, t: string)
    requires '@' !in before
    ensures Clear(before, t)
  {
    if before != [] {
      PlainIsClear(before[1..], t);
      AtSignFirst(before + t);
      assert (before + t)[0] == before[0];
    }
  }

  // ---- a guide and its part ----

  datatype Row = Row(name: string, value: string, words: string, copy: bool, secret: string)

  /** A guide of one device and one file. */
  datatype Guide = Guide(device: string, file: nat, ref: string, secret: bool, protocol: string, weak: bool, path: string,
                         rows: seq<Row>, notes: seq<string>, command: string)

  /** What fills the slots: the reference first, then each row's value, and last the command if there is one. */
  function Vals(g: Guide): seq<string> {
    [g.ref] + seq(|g.rows|, i requires 0 <= i < |g.rows| => g.rows[i].value) + (if g.command != "" then [g.command] else [])
  }

  /** The part: the guide with slots where its values were. */
  function Mold(g: Guide): Guide {
    g.(file := 0, ref := Slot(0),
       rows := seq(|g.rows|, i requires 0 <= i < |g.rows| => g.rows[i].(value := Slot(i + 1))),
       command := if g.command != "" then Slot(|g.rows| + 1) else "")
  }

  function FillRow(r: Row, vals: seq<string>): Row {
    Row(Fill(r.name, vals), Fill(r.value, vals), Fill(r.words, vals), r.copy, Fill(r.secret, vals))
  }

  /** Every text of the part, filled. */
  function FillGuide(m: Guide, vals: seq<string>): Guide {
    Guide(Fill(m.device, vals), m.file, Fill(m.ref, vals), m.secret, Fill(m.protocol, vals), m.weak, Fill(m.path, vals),
          seq(|m.rows|, i requires 0 <= i < |m.rows| => FillRow(m.rows[i], vals)),
          seq(|m.notes|, i requires 0 <= i < |m.notes| => Fill(m.notes[i], vals)),
          Fill(m.command, vals))
  }

  /** None of the texts that are not the file's own can be read as a slot. */
  predicate FixedTexts(g: Guide) {
    && !HasSlot(g.device) && !HasSlot(g.protocol) && !HasSlot(g.path)
    && (forall i :: 0 <= i < |g.rows| ==> !HasSlot(g.rows[i].name) && !HasSlot(g.rows[i].words) && !HasSlot(g.rows[i].secret))
    && (forall i :: 0 <= i < |g.notes| ==> !HasSlot(g.notes[i]))
  }

  lemma SlotAlone(n: nat, vals: seq<string>)
    requires n < |vals|
    ensures Fill(Slot(n), vals) == vals[n]
  {
    FillSlot(n, vals, []);
    assert Slot(n) + [] == Slot(n) && vals[n] + [] == vals[n];
  }

  lemma RowExpands(g: Guide, i: nat)
    requires FixedTexts(g) && i < |g.rows|
    ensures FillRow(Mold(g).rows[i], Vals(g)) == g.rows[i]
  {
    var vals := Vals(g);
    FillFixed(g.rows[i].name, vals);
    FillFixed(g.rows[i].words, vals);
    FillFixed(g.rows[i].secret, vals);
    assert vals[i + 1] == g.rows[i].value;
    SlotAlone(i + 1, vals);
  }

  /** Filling the shared part with a stub's values gives back exactly that file's guide. */
  lemma MoldExpands(g: Guide)
    requires FixedTexts(g)
    ensures FillGuide(Mold(g), Vals(g)) == g.(file := 0)
  {
    var vals, m := Vals(g), Mold(g);
    FillFixed(g.device, vals);
    FillFixed(g.protocol, vals);
    FillFixed(g.path, vals);
    SlotAlone(0, vals);
    var f := FillGuide(m, vals);
    forall i | 0 <= i < |g.rows| ensures f.rows[i] == g.rows[i] {
      RowExpands(g, i);
    }
    forall i | 0 <= i < |g.notes| ensures f.notes[i] == g.notes[i] {
      FillFixed(g.notes[i], vals);
    }
    assert f.rows == g.rows && f.notes == g.notes;
    if g.command != "" {
      assert vals[|g.rows| + 1] == g.command;
      SlotAlone(|g.rows| + 1, vals);
    }
  }

  // ---- parts, each kept once ----

  datatype Part<D> = Part(kind: string, data: D)

  /** The key a part is kept under; `json` is how data is written, where it can be. */
  function KeyOf<D>(json: D -> Option<string>, kind: string, data: D, count: nat): string {
    kind + "|" + (match json(data) case Some(s) => s case None => "unkeyed:" + ListField.Decimal(count))
  }

  /** Different data is written differently, and never as an unkeyed part is. */
  ghost predicate Injective<D(!new)>(json: D -> Option<string>) {
    && (forall a, b :: json(a).Some? && json(a) == json(b) ==> a == b)
    && (forall a, n: nat :: json(a) != Some("unkeyed:" + ListField.Decimal(n)))
  }

  predicate PlainKind(kind: string) {
    forall i :: 0 <= i < |kind| ==> kind[i] != '|'
  }

  lemma KeyHead(k: string, s: string)
    ensures (k + "|" + s)[0] == if k == [] then '|' else k[0]
  {
  }

  lemma {:induction false} KindSplits(k: string, s: string, k': string, s': string)
    requires PlainKind(k) && PlainKind(k') && k + "|" + s == k' + "|" + s'
    ensures k == k' && s == s'
    decreases |k|
  {
    var a, b := k + "|" + s, k' + "|" + s';
    KeyHead(k, s);
    KeyHead(k', s');
    if k == [] {
      assert a[1..] == s && b[1..] == s';
    } else {
      assert a[1..] == k[1..] + "|" + s && b[1..] == k'[1..] + "|" + s';
      KindSplits(k[1..], s, k'[1..], s');
      assert k == [k[0]] + k[1..] && k' == [k'[0]] + k'[1..];
    }
  }

  lemma {:induction false} DecimalInjective(n: nat, m: nat)
    requires ListField.Decimal(n) == ListField.Decimal(m)
    ensures n == m
  {
    ListField.ValueOfDecimal(n);
    ListField.ValueOfDecimal(m);
  }

  class Shared<D(==,!new)> {
    const json: D -> Option<string>
    var ids: map<string, nat>
    var parts: seq<Part<D>>

    /** Each part is kept under its own key, and each key names its part. */
    ghost predicate Valid()
      reads this
    {
      && Injective(json)
      && (forall i :: 0 <= i < |parts| ==> PlainKind(parts[i].kind))
      && (forall k :: k in ids ==> ids[k] < |parts| && k == KeyOf(json, parts[ids[k]].kind, parts[ids[k]].data, ids[k]))
      && (forall i :: 0 <= i < |parts| ==> var k := KeyOf(json, parts[i].kind, parts[i].data, i); k in ids && ids[k] == i)
    }

    constructor (json: D -> Option<string>)
      requires Injective(json)
      ensures Valid() && this.json == json && parts == []
    {
      this.json, ids, parts := json, map[], [];
    }

    lemma SameKeySamePart(kind: string, data: D, i: nat)
      requires Valid() && PlainKind(kind) && i < |parts|
      requires KeyOf(json, kind, data, |parts|) == KeyOf(json, parts[i].kind, parts[i].data, i)
      ensures json(data).Some? && parts[i] == Part(kind, data)
    {
      var a := match json(data) case Some(s) => s case None => "unkeyed:" + ListField.Decimal(|parts|);
      var b := match json(parts[i].data) case Some(s) => s case None => "unkeyed:" + ListField.Decimal(i);
      KindSplits(kind, a, parts[i].kind, b);
      if json(data).None? && json(parts[i].data).None? {
        assert a[8..] == ListField.Decimal(|parts|) && b[8..] == ListField.Decimal(i);
        DecimalInjective(|parts|, i);
      }
    }

    /** Keep a part. It is one kept before exactly when that one has the same kind and the same data;
        data that cannot be written is a part of its own. */
    method Put(kind: string, data: D) returns (id: nat)
      requires Valid() && PlainKind(kind)
      modifies this
      ensures Valid() && id < |parts| && parts[id] == Part(kind, data)
      ensures parts == if id < |old(parts)| then old(parts) else old(parts) + [Part(kind, data)]
      ensures id < |old(parts)| <==> json(data).Some? && Part(kind, data) in old(parts)
    {
      var k := KeyOf(json, kind, data, |parts|);
      if k in ids {
        SameKeySamePart(kind, data, ids[k]);
        return ids[k];
      }
      assert forall i :: 0 <= i < |parts| && parts[i] == Part(kind, data) ==> KeyOf(json, parts[i].kind, parts[i].data, i) in ids;
      id := |parts|;
      ids := ids[k := id];
      parts := parts + [Part(kind, data)];
    }
  }

  /** What a card keeps of one of its guides: the part it is, and its own values. */
  datatype Stub = Stub(from: nat, vals: seq<string>)

  /** The script's filling of a stub gives back its guide. */
  predicate Expands(stub: Stub, g: Guide, parts: seq<Part<Guide>>) {
    && stub.from < |parts|
    && FillGuide(parts[stub.from].data, stub.vals) == g.(file := 0)
  }

  /** Each guide's stub names its part and holds its values. */
  ghost predicate Stubs(stubs: seq<Stub>, guides: seq<Guide>, parts: seq<Part<Guide>>) {
    && |stubs| == |guides|
    && forall i :: 0 <= i < |stubs| ==>
         && stubs[i].from < |parts| && parts[stubs[i].from] == Part("guide", Mold(guides[i])) && stubs[i].vals == Vals(guides[i])
  }

  lemma NoStubs(parts: seq<Part<Guide>>)
    ensures Stubs([], [], parts)
  {
  }

  lemma StubsGrow(stubs: seq<Stub>, guides: seq<Guide>, before: seq<Part<Guide>>, parts: seq<Part<Guide>>, from: nat, g: Guide)
    requires Stubs(stubs, guides, before) && before <= parts && from < |parts| && parts[from] == Part("guide", Mold(g))
    ensures Stubs(stubs + [Stub(from, Vals(g))], guides + [g], parts)
  {
    var more := stubs + [Stub(from, Vals(g))];
    forall i | 0 <= i < |more|
      ensures more[i].from < |parts| && parts[more[i].from] == Part("guide", Mold((guides + [g])[i])) && more[i].vals == Vals((guides + [g])[i])
    {
      assert i < |stubs| ==> more[i] == stubs[i] && (guides + [g])[i] == guides[i];
    }
  }

  lemma StubsExpand(stubs: seq<Stub>, guides: seq<Guide>, parts: seq<Part<Guide>>)
    requires Stubs(stubs, guides, parts) && forall i :: 0 <= i < |guides| ==> FixedTexts(guides[i])
    ensures |stubs| == |guides| && forall i :: 0 <= i < |guides| ==> Expands(stubs[i], guides[i], parts)
  {
    forall i | 0 <= i < |guides| ensures Expands(stubs[i], guides[i], parts) {
      MoldExpands(guides[i]);
    }
  }

  /** Two equal parts that can be written are one. */
  lemma OnePartEach(shared: Shared<Guide>, i: nat, j: nat)
    requires shared.Valid() && i < |shared.parts| && j < |shared.parts| && shared.parts[i] == shared.parts[j]
    requires shared.json(shared.parts[i].data).Some?
    ensures i == j
  {
    assert KeyOf(shared.json, shared.parts[i].kind, shared.parts[i].data, i)
        == KeyOf(shared.json, shared.parts[j].kind, shared.parts[j].data, j);
  }

  lemma SharedWhenSame(shared: Shared<Guide>, stubs: seq<Stub>, guides: seq<Guide>)
    requires shared.Valid() && Stubs(stubs, guides, shared.parts) && forall g: Guide :: shared.json(g).Some?
    ensures forall i, j :: 0 <= i < |guides| && 0 <= j < |guides| ==>
              (stubs[i].from == stubs[j].from <==> Mold(guides[i]) == Mold(guides[j]))
  {
    forall i, j | 0 <= i < |guides| && 0 <= j < |guides|
      ensures stubs[i].from == stubs[j].from <==> Mold(guides[i]) == Mold(guides[j])
    {
      if Mold(guides[i]) == Mold(guides[j]) {
        OnePartEach(shared, stubs[i].from, stubs[j].from);
      }
    }
  }

  /** Write a card's guides as shared parts and stubs. Two guides are one part exactly when they are the
      same but for their values, and each stub fills its part back into its guide. */
  method ShareGuides(shared: Shared<Guide>, guides: seq<Guide>) returns (stubs: seq<Stub>)
    requires shared.Valid() && forall g: Guide :: shared.json(g).Some?
    requires forall i :: 0 <= i < |guides| ==> FixedTexts(guides[i])
    modifies shared
    ensures shared.Valid() && |stubs| == |guides| && old(shared.parts) <= shared.parts
    ensures forall i :: 0 <= i < |guides| ==> Expands(stubs[i], guides[i], shared.parts)
    ensures forall i, j :: 0 <= i < |guides| && 0 <= j < |guides| ==>
              (stubs[i].from == stubs[j].from <==> Mold(guides[i]) == Mold(guides[j]))
  {
    hide Stubs, Expands, FixedTexts, Mold, Vals;
    stubs := [];
    assert Stubs(stubs, guides[..0], shared.parts) by {
      NoStubs(shared.parts);
    }
    for n := 0 to |guides|
      invariant shared.Valid() && old(shared.parts) <= shared.parts
      invariant Stubs(stubs, guides[..n], shared.parts)
    {
      ghost var before := shared.parts;
      var g := guides[n];
      var from := shared.Put("guide", Mold(g));
      StubsGrow(stubs, guides[..n], before, shared.parts, from, g);
      assert guides[..n + 1] == guides[..n] + [g];
      stubs := stubs + [Stub(from, Vals(g))];
    }
    assert guides[..|guides|] == guides;
    StubsExpand(stubs, guides, shared.parts);
    SharedWhenSame(shared, stubs, guides);
  }
}
