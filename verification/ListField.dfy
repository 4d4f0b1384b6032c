/**
  Lists stored in one text field, and ids written as decimal numbers in them.
  White space other than the five separators is not part of the model.
 */
module ListField {
  import opened Prelude

  predicate Separator(c: char) {
    c == ',' || c == '\n' || c == '\r' || c == ' ' || c == '\t'
  }

  /** The runs of other characters between separators; `run` is the one being read. */
  function Fields(s: string, run: string): seq<string>
    decreases |s|
  {
    if s == [] then (if run == [] then [] else [run])
    else if Separator(s[0]) then (if run == [] then [] else [run]) + Fields(s[1..], [])
    else Fields(s[1..], run + [s[0]])
  }

  /** The list without what is in `seen`, each entry once, in order. */
  function Dedup(l: seq<string>, seen: set<string>): seq<string>
    decreases |l|
  {
    if l == [] then []
    else if l[0] in seen then Dedup(l[1..], seen)
    else [l[0]] + Dedup(l[1..], seen + {l[0]})
  }

  /** Deduplication keeps every entry, once. */
  lemma {:induction false} DedupFacts(l: seq<string>, seen: set<string>)
    ensures var r := Dedup(l, seen);
            && (forall v :: v in r <==> v in l && v !in seen)
            && (forall i, j :: 0 <= i < j < |r| ==> r[i] != r[j])
    decreases |l|
  {
    if l != [] {
      DedupFacts(l[1..], if l[0] in seen then seen else seen + {l[0]});
    }
  }

  function Split(s: string): seq<string> {
    Dedup(Fields(s, []), {})
  }

  function Commas(l: seq<string>): string {
    if l == [] then []
    else if |l| == 1 then l[0]
    else l[0] + [','] + Commas(l[1..])
  }

  function NonEmpty(l: seq<string>): seq<string> {
    if l == [] then [] else (if l[0] == [] then [] else [l[0]]) + NonEmpty(l[1..])
  }

  function Join(l: seq<string>): string {
    Commas(Dedup(NonEmpty(l), {}))
  }

  /** An entry that survives being stored: not empty, and with no separator in it. */
  predicate Storable(v: string) {
    v != [] && forall i :: 0 <= i < |v| ==> !Separator(v[i])
  }

  predicate Distinct(l: seq<string>) {
    forall i, j :: 0 <= i < j < |l| ==> l[i] != l[j]
  }

  lemma {:induction false} DedupDistinct(l: seq<string>, seen: set<string>)
    requires Distinct(l) && forall v :: v in l ==> v !in seen
    ensures Dedup(l, seen) == l
    decreases |l|
  {
    if l != [] {
      assert Distinct(l[1..]);
      forall v | v in l[1..] ensures v !in seen + {l[0]} {
        var i :| 0 <= i < |l[1..]| && l[1..][i] == v;
        assert l[i + 1] == v;
      }
      DedupDistinct(l[1..], seen + {l[0]});
    }
  }

  lemma {:induction false} NonEmptyAll(l: seq<string>)
    requires forall i :: 0 <= i < |l| ==> l[i] != []
    ensures NonEmpty(l) == l
  {
    if l != [] {
      assert l == [l[0]] + l[1..];
      NonEmptyAll(l[1..]);
    }
  }

  lemma {:induction false} FieldsOfEntry(v: string, rest: string, run: string)
    requires forall i :: 0 <= i < |v| ==> !Separator(v[i])
    ensures Fields(v + rest, run) == Fields(rest, run + v)
    decreases |v|
  {
    if v == [] {
      assert v + rest == rest && run + v == run;
    } else {
      assert (v + rest)[1..] == v[1..] + rest;
      FieldsOfEntry(v[1..], rest, run + [v[0]]);
      assert run + [v[0]] + v[1..] == run + v;
    }
  }

  lemma {:induction false} FieldsOfCommas(l: seq<string>)
    requires forall i :: 0 <= i < |l| ==> Storable(l[i])
    ensures Fields(Commas(l), []) == l
  {
    if l == [] {
    } else if |l| == 1 {
      FieldsOfEntry(l[0], [], []);
      assert l[0] + [] == l[0] && [] + l[0] == l[0];
      assert l == [l[0]];
    } else {
      var rest := [','] + Commas(l[1..]);
      assert l[0] + [','] + Commas(l[1..]) == l[0] + rest;
      FieldsOfEntry(l[0], rest, []);
      assert [] + l[0] == l[0];
      assert l == [l[0]] + l[1..];
      assert rest[0] == ',' && rest[1..] == Commas(l[1..]);
      FieldsOfCommas(l[1..]);
    }
  }

  /** A list of distinct storable entries is read back as it was stored. */
  lemma SplitJoin(l: seq<string>)
    requires Distinct(l) && forall i :: 0 <= i < |l| ==> Storable(l[i])
    ensures Split(Join(l)) == l
    ensures l != [] ==> Join(l) != []
  {
    NonEmptyAll(l);
    DedupDistinct(l, {});
    FieldsOfCommas(l);
    if l != [] {
      assert Fields([], []) == [] != Fields(Commas(l), []);
    }
  }

  lemma {:induction false} FieldsStorable(s: string, run: string)
    requires forall i :: 0 <= i < |run| ==> !Separator(run[i])
    ensures forall v :: v in Fields(s, run) ==> Storable(v)
    decreases |s|
  {
    if s != [] {
      if Separator(s[0]) {
        FieldsStorable(s[1..], []);
      } else {
        FieldsStorable(s[1..], run + [s[0]]);
      }
    }
  }

  /** What is read from a field are distinct entries that can be stored again. */
  lemma SplitStorable(s: string)
    ensures Distinct(Split(s)) && forall v :: v in Split(s) ==> Storable(v)
  {
    FieldsStorable(s, []);
    DedupFacts(Fields(s, []), {});
  }

  // ---- ids in decimal ----

  const UINT64 := 0x1_0000_0000_0000_0000

  predicate Digit(c: char) {
    '0' <= c <= '9'
  }

  function Decimal(n: nat): (s: string)
    ensures s != [] && forall i :: 0 <= i < |s| ==> Digit(s[i])
  {
    if n < 10 then ['0' + n as char] else Decimal(n / 10) + ['0' + (n % 10) as char]
  }

  function Value(s: string): nat
    requires forall i :: 0 <= i < |s| ==> Digit(s[i])
  {
    if s == [] then 0
    else
      assert Digit(s[|s| - 1]);
      Value(s[..|s| - 1]) * 10 + (s[|s| - 1] as int - '0' as int)
  }

  /** A base-ten unsigned 64-bit number, leading zeros allowed. */
  function ParseUint(s: string): Option<nat> {
    if s != [] && (forall i :: 0 <= i < |s| ==> Digit(s[i])) && Value(s) < UINT64 then Some(Value(s)) else None
  }

  /** The way the panel itself writes an id. */
  predicate Canonical(s: string) {
    ParseUint(s).Some? && s == Decimal(ParseUint(s).value)
  }

  lemma {:induction false} ValueOfDecimal(n: nat)
    ensures Value(Decimal(n)) == n
  {
    if n >= 10 {
      ValueOfDecimal(n / 10);
      var s := Decimal(n);
      assert s[..|s| - 1] == Decimal(n / 10);
    } else {
      assert Decimal(n)[..0] == [];
    }
  }

  /** An id written in decimal is read back as the same id, and is an entry that survives being stored. */
  lemma DecimalRoundTrip(n: nat)
    requires n < UINT64
    ensures ParseUint(Decimal(n)) == Some(n) && Canonical(Decimal(n)) && Storable(Decimal(n))
  {
    ValueOfDecimal(n);
    var s := Decimal(n);
    forall i | 0 <= i < |s| ensures !Separator(s[i]) {
      assert Digit(s[i]);
    }
  }
}
