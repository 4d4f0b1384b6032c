/**
  A QR as the page carries it: its width, a colon, and a bit a dot in unpadded
  base64 of URLs (section 5 of RFC 4648), and the page's script drawing it back.
  A bounded number of patterns is remembered.
 */
module DotPattern {
  import opened Prelude
  import ListField

  type Bitmap = seq<seq<bool>>

  predicate Square(d: Bitmap) {
    forall y :: 0 <= y < |d| ==> |d[y]| == |d|
  }

  /** The i-th dot, row by row. */
  predicate On(d: Bitmap, i: nat)
    requires Square(d)
  {
    |d| > 0 && i / |d| < |d| && d[i / |d|][i % |d|]
  }

  /** Row y, column x of an n wide square. */
  function Index(n: nat, y: nat, x: nat): nat {
    y * n + x
  }

  lemma Position(n: nat, y: nat, x: nat)
    requires y < n && x < n
    ensures Index(n, y, x) < n * n && Index(n, y, x) / n == y && Index(n, y, x) % n == x
  {
    Below(n, y, x);
    Quotient(y, x, n);
  }

  lemma Quotient(y: nat, x: nat, n: nat)
    requires x < n
    ensures (y * n + x) / n == y && (y * n + x) % n == x
  {
    var q, r := (y * n + x) / n, (y * n + x) % n;
    assert (q - y) * n == x - r;
    Small(q - y, n, x - r);
  }

  lemma Small(k: int, n: nat, v: int)
    requires k * n == v && v < n && 0 < v + n
    ensures k == 0
  {
  }

  // ---- bits in bytes ----

  function Two(w: nat): nat {
    if w == 0 then 1 else 2 * Two(w - 1)
  }

  /** A number from its bits, high bit first. */
  function FromBits(s: seq<bool>): nat {
    if s == [] then 0 else 2 * FromBits(s[..|s| - 1]) + if s[|s| - 1] then 1 else 0
  }

  /** The low w bits of a number, high bit first. */
  function BitsOf(b: nat, w: nat): (s: seq<bool>)
    ensures |s| == w
  {
    if w == 0 then [] else BitsOf(b / 2, w - 1) + [b % 2 == 1]
  }

  lemma {:induction false} FromBelow(s: seq<bool>)
    ensures FromBits(s) < Two(|s|)
  {
    if s != [] {
      FromBelow(s[..|s| - 1]);
    }
  }

  lemma {:induction false} BitsFrom(s: seq<bool>)
    ensures BitsOf(FromBits(s), |s|) == s
  {
    if s != [] {
      BitsFrom(s[..|s| - 1]);
      assert s == s[..|s| - 1] + [s[|s| - 1]];
    }
  }

  lemma {:induction false} FromIs(b: nat, w: nat)
    requires b < Two(w)
    ensures FromBits(BitsOf(b, w)) == b
  {
    if w != 0 {
      FromIs(b / 2, w - 1);
      assert BitsOf(b, w)[..w - 1] == BitsOf(b / 2, w - 1);
    }
  }

  lemma TwoEight()
    ensures Two(8) == 256
  {
    assert Two(4) == 16;
  }

  /** The byte of eight bits. */
  function ByteOf(s: seq<bool>): Byte
    requires |s| == 8
  {
    FromBelow(s);
    TwoEight();
    FromBits(s)
  }

  /** Bit k of a byte, from the high one: what masking with 0x80 moved right by k asks. */
  predicate HasBit(b: Byte, k: nat)
    requires k < 8
  {
    BitsOf(b, 8)[k]
  }

  /** A byte with bit k set and the others as they were: what or-ing with 0x80 moved right by k makes. */
  function SetBit(b: Byte, k: nat): Byte
    requires k < 8
  {
    ByteOf(BitsOf(b, 8)[k := true])
  }

  lemma ByteOfHas(s: seq<bool>, k: nat)
    requires |s| == 8 && k < 8
    ensures HasBit(ByteOf(s), k) <==> s[k]
  {
    BitsFrom(s);
  }

  lemma SetBitHas(b: Byte, j: nat, k: nat)
    requires j < 8 && k < 8
    ensures HasBit(SetBit(b, j), k) <==> j == k || HasBit(b, k)
  {
    ByteOfHas(BitsOf(b, 8)[j := true], k);
  }

  lemma SameBitsSameByte(a: Byte, b: Byte)
    requires forall k :: 0 <= k < 8 ==> (HasBit(a, k) <==> HasBit(b, k))
    ensures a == b
  {
    TwoEight();
    FromIs(a, 8);
    FromIs(b, 8);
    forall k | 0 <= k < 8 ensures BitsOf(a, 8)[k] == BitsOf(b, 8)[k] {
      assert HasBit(a, k) <==> HasBit(b, k);
    }
    assert BitsOf(a, 8) == BitsOf(b, 8);
  }

  lemma ZeroHas(k: nat)
    requires k < 8
    ensures !HasBit(0, k)
  {
    ZeroBits(8);
  }

  lemma {:induction false} ZeroBits(w: nat)
    ensures forall k :: 0 <= k < w ==> !BitsOf(0, w)[k]
  {
    if w > 0 {
      ZeroBits(w - 1);
    }
  }

  /** Bit i of a run of bytes, from the high bit; past the end nothing is set. */
  predicate Bit(b: seq<Byte>, i: nat) {
    i / 8 < |b| && HasBit(b[i / 8], i % 8)
  }

  function WithBit(b: seq<Byte>, i: nat): seq<Byte>
    requires i < 8 * |b|
  {
    b[i / 8 := SetBit(b[i / 8], i % 8)]
  }

  lemma WithBitSets(b: seq<Byte>, i: nat, k: nat)
    requires i < 8 * |b| && k < 8 * |b|
    ensures Bit(WithBit(b, i), k) <==> k == i || Bit(b, k)
  {
    assert k == 8 * (k / 8) + k % 8 && i == 8 * (i / 8) + i % 8;
    SetBitHas(b[i / 8], i % 8, k % 8);
  }

  function ByteCount(n: nat): nat {
    (n * n + 7) / 8
  }

  /** The first m dots are set as they are on the bitmap, and nothing else is. */
  predicate Holds(b: seq<Byte>, d: Bitmap, m: nat)
    requires Square(d)
  {
    forall i :: 0 <= i < 8 * |b| ==> (Bit(b, i) <==> i < m && On(d, i))
  }

  lemma SetNext(b: seq<Byte>, d: Bitmap, i: nat)
    requires Square(d) && Holds(b, d, i) && i < 8 * |b|
    ensures Holds(if On(d, i) then WithBit(b, i) else b, d, i + 1)
  {
    var b' := if On(d, i) then WithBit(b, i) else b;
    forall k | 0 <= k < 8 * |b'| ensures Bit(b', k) <==> k < i + 1 && On(d, k) {
      WithBitSets(b, i, k);
    }
  }

  lemma SameBits(a: seq<Byte>, b: seq<Byte>, j: nat)
    requires |a| == |b| && j < |a| && forall i :: 0 <= i < 8 * |a| ==> (Bit(a, i) <==> Bit(b, i))
    ensures a[j] == b[j]
  {
    forall k | 0 <= k < 8 ensures HasBit(a[j], k) <==> HasBit(b[j], k) {
      assert Bit(a, 8 * j + k) <==> Bit(b, 8 * j + k);
      assert (8 * j + k) / 8 == j && (8 * j + k) % 8 == k;
    }
    SameBitsSameByte(a[j], b[j]);
  }

  lemma HoldsIsOne(a: seq<Byte>, b: seq<Byte>, d: Bitmap, m: nat)
    requires Square(d) && Holds(a, d, m) && Holds(b, d, m) && |a| == |b|
    ensures a == b
  {
    forall j | 0 <= j < |a| ensures a[j] == b[j] {
      SameBits(a, b, j);
    }
  }

  // ---- base64 ----

  type Sextet = s: nat | s < 64

  /** The URL alphabet. */
  function UrlChar(s: Sextet): char {
    if s < 26 then 'A' + s as char
    else if s < 52 then 'a' + (s - 26) as char
    else if s < 62 then '0' + (s - 52) as char
    else if s == 62 then '-' else '_'
  }

  /** The script's two replacements. */
  function Standard(c: char): char {
    if c == '-' then '+' else if c == '_' then '/' else c
  }

  /** The browser's alphabet. */
  function Place(c: char): Option<Sextet> {
    if 'A' <= c <= 'Z' then Some((c - 'A') as nat)
    else if 'a' <= c <= 'z' then Some((c - 'a') as nat + 26)
    else if '0' <= c <= '9' then Some((c - '0') as nat + 52)
    else if c == '+' then Some(62) else if c == '/' then Some(63) else None
  }

  function Read(c: char): Option<Sextet> {
    Place(Standard(c))
  }

  lemma AlphabetsAgree(s: Sextet)
    ensures Read(UrlChar(s)) == Some(s)
  {
  }

  /** The six-bit groups of three bytes. */
  function First(a: Byte): Sextet {
    a / 4
  }

  function Second(a: Byte, b: Byte): Sextet {
    a % 4 * 16 + b / 16
  }

  function Third(b: Byte, c: Byte): Sextet {
    b % 16 * 4 + c / 64
  }

  function Fourth(c: Byte): Sextet {
    c % 64
  }

  /** The bytes of four of them. */
  function ByteA(p: Sextet, q: Sextet): Byte {
    p * 4 + q / 16
  }

  function ByteB(q: Sextet, r: Sextet): Byte {
    q % 16 * 16 + r / 4
  }

  function ByteC(r: Sextet, s: Sextet): Byte {
    r % 4 * 64 + s
  }

  lemma GroupBack(a: Byte, b: Byte, c: Byte)
    ensures ByteA(First(a), Second(a, b)) == a && ByteB(Second(a, b), Third(b, c)) == b && ByteC(Third(b, c), Fourth(c)) == c
  {
  }

  function Pair(a: Byte): string {
    [UrlChar(First(a)), UrlChar(Second(a, 0))]
  }

  function Triple(a: Byte, b: Byte): string {
    [UrlChar(First(a)), UrlChar(Second(a, b)), UrlChar(Third(b, 0))]
  }

  function Group(a: Byte, b: Byte, c: Byte): string {
    [UrlChar(First(a)), UrlChar(Second(a, b)), UrlChar(Third(b, c)), UrlChar(Fourth(c))]
  }

  /** Unpadded base64 of URLs. */
  function Encode(b: seq<Byte>): string {
    if |b| == 0 then []
    else if |b| == 1 then Pair(b[0])
    else if |b| == 2 then Triple(b[0], b[1])
    else Group(b[0], b[1], b[2]) + Encode(b[3..])
  }

  /** What the browser's atob makes of text without padding, after the script's replacements. */
  function Decode(t: string): Option<seq<Byte>> {
    if |t| == 0 then Some([])
    else if |t| == 1 || Read(t[0]).None? || Read(t[1]).None? then None
    else
      var p, q := Read(t[0]).value, Read(t[1]).value;
      if |t| == 2 then Some([ByteA(p, q)])
      else if Read(t[2]).None? then None
      else
        var r := Read(t[2]).value;
        if |t| == 3 then Some([ByteA(p, q), ByteB(q, r)])
        else if Read(t[3]).None? || Decode(t[4..]).None? then None
        else Some([ByteA(p, q), ByteB(q, r), ByteC(r, Read(t[3]).value)] + Decode(t[4..]).value)
  }

  lemma DecodeGroup(c: seq<char>, p: Sextet, q: Sextet, r: Sextet, s: Sextet, rest: string, b: seq<Byte>)
    requires |c| == 4 && Decode(rest) == Some(b)
    requires Read(c[0]) == Some(p) && Read(c[1]) == Some(q) && Read(c[2]) == Some(r) && Read(c[3]) == Some(s)
    ensures Decode(c + rest) == Some([ByteA(p, q), ByteB(q, r), ByteC(r, s)] + b)
  {
    assert (c + rest)[4..] == rest;
  }

  lemma GroupDecodes(a: Byte, b: Byte, c: Byte, rest: string, bytes: seq<Byte>)
    requires Decode(rest) == Some(bytes)
    ensures Decode(Group(a, b, c) + rest) == Some([a, b, c] + bytes)
  {
    AlphabetsAgree(First(a));
    AlphabetsAgree(Second(a, b));
    AlphabetsAgree(Third(b, c));
    AlphabetsAgree(Fourth(c));
    DecodeGroup(Group(a, b, c), First(a), Second(a, b), Third(b, c), Fourth(c), rest, bytes);
    GroupBack(a, b, c);
  }

  lemma DecodePair(c: seq<char>, p: Sextet, q: Sextet)
    requires |c| == 2 && Read(c[0]) == Some(p) && Read(c[1]) == Some(q)
    ensures Decode(c) == Some([ByteA(p, q)])
  {
  }

  lemma DecodeTriple(c: seq<char>, p: Sextet, q: Sextet, r: Sextet)
    requires |c| == 3 && Read(c[0]) == Some(p) && Read(c[1]) == Some(q) && Read(c[2]) == Some(r)
    ensures Decode(c) == Some([ByteA(p, q), ByteB(q, r)])
  {
  }

  lemma PairDecodes(a: Byte)
    ensures Decode(Pair(a)) == Some([a])
  {
    AlphabetsAgree(First(a));
    AlphabetsAgree(Second(a, 0));
    DecodePair(Pair(a), First(a), Second(a, 0));
    GroupBack(a, 0, 0);
  }

  lemma TripleDecodes(a: Byte, b: Byte)
    ensures Decode(Triple(a, b)) == Some([a, b])
  {
    AlphabetsAgree(First(a));
    AlphabetsAgree(Second(a, b));
    AlphabetsAgree(Third(b, 0));
    DecodeTriple(Triple(a, b), First(a), Second(a, b), Third(b, 0));
    GroupBack(a, b, 0);
  }

  /** The browser reads back every run of bytes. */
  lemma {:induction false} EncodeDecodes(b: seq<Byte>)
    ensures Decode(Encode(b)) == Some(b)
  {
    hide Pair, Triple, Group;
    if |b| == 0 {
    } else if |b| == 1 {
      PairDecodes(b[0]);
      assert b == [b[0]];
    } else if |b| == 2 {
      TripleDecodes(b[0], b[1]);
      assert b == [b[0], b[1]];
    } else {
      EncodeDecodes(b[3..]);
      GroupDecodes(b[0], b[1], b[2], Encode(b[3..]), b[3..]);
      assert b == [b[0], b[1], b[2]] + b[3..];
    }
  }

  // ---- the pattern ----

  function EightDots(d: Bitmap, j: nat): seq<bool>
    requires Square(d)
  {
    seq(8, k requires 0 <= k < 8 => On(d, 8 * j + k))
  }

  /** A bitmap's dots, a bit each, row by row from the high bit. */
  function Bytes(d: Bitmap): seq<Byte>
    requires Square(d)
  {
    seq(ByteCount(|d|), j requires 0 <= j < ByteCount(|d|) => ByteOf(EightDots(d, j)))
  }

  lemma Below(n: nat, q: nat, r: nat)
    requires q < n && r < n
    ensures q * n + r < n * n
  {
    NoLess(n - q - 1, n);
    assert (n - q - 1) * n == n * n - q * n - n;
  }

  lemma NoLess(a: nat, b: nat)
    ensures a * b >= 0
  {
  }

  lemma OnWithin(d: Bitmap, i: nat)
    requires Square(d) && On(d, i)
    ensures i < |d| * |d|
  {
    Below(|d|, i / |d|, i % |d|);
    assert i == (i / |d|) * |d| + i % |d|;
  }

  lemma BytesBit(d: Bitmap, i: nat)
    requires Square(d) && i < 8 * ByteCount(|d|)
    ensures Bit(Bytes(d), i) <==> On(d, i)
  {
    var dots := EightDots(d, i / 8);
    ByteOfHas(dots, i % 8);
    assert i == 8 * (i / 8) + i % 8;
    assert Bytes(d)[i / 8] == ByteOf(dots);
  }

  lemma BytesHold(d: Bitmap)
    requires Square(d)
    ensures Holds(Bytes(d), d, |d| * |d|)
  {
    forall i | 0 <= i < 8 * |Bytes(d)| ensures Bit(Bytes(d), i) <==> i < |d| * |d| && On(d, i) {
      BytesBit(d, i);
      if On(d, i) {
        OnWithin(d, i);
      }
    }
  }

  /** What a pattern's text says: its width, a colon, its dots. */
  function Code(d: Bitmap): string
    requires Square(d)
  {
    ListField.Decimal(|d|) + [':'] + Encode(Bytes(d))
  }

  /** Write a bitmap down, setting a bit for each dot that is on. */
  method Pack(d: Bitmap) returns (code: string)
    requires Square(d)
    ensures code == Code(d)
  {
    var n := |d|;
    var bits := new Byte[ByteCount(n)](_ => 0);
    assert bits[..] == seq(ByteCount(n), _ => 0);
    NoneHold(bits[..], d);
    for y := 0 to n
      invariant Holds(bits[..], d, y * n)
    {
      for x := 0 to n
        invariant Holds(bits[..], d, y * n + x)
      {
        var i := Index(n, y, x);
        Position(n, y, x);
        SetNext(bits[..], d, i);
        if d[y][x] {
          ghost var was := bits[..];
          bits[i / 8] := SetBit(bits[i / 8], i % 8);
          assert bits[..] == WithBit(was, i);
        }
      }
      assert y * n + n == (y + 1) * n;
    }
    BytesHold(d);
    HoldsIsOne(bits[..], Bytes(d), d, n * n);
    code := ListField.Decimal(n) + [':'] + Encode(bits[..]);
  }

  lemma NoneHold(b: seq<Byte>, d: Bitmap)
    requires Square(d) && forall j :: 0 <= j < |b| ==> b[j] == 0
    ensures Holds(b, d, 0)
  {
    forall i | 0 <= i < 8 * |b| ensures !Bit(b, i) {
      ZeroHas(i % 8);
    }
  }

  // ---- the page's script ----

  /** Where the first colon is, or the length of a text with none. */
  function Colon(t: string): (n: nat)
    ensures n <= |t| && (n < |t| ==> t[n] == ':')
  {
    if t == [] || t[0] == ':' then 0 else 1 + Colon(t[1..])
  }

  /** What the script reads: a width and a run of bytes. */
  function Parse(code: string): Option<(nat, seq<Byte>)> {
    var at := Colon(code);
    var width := ListField.ParseUint(code[..at]);
    if at == |code| || width.None? || Decode(code[at + 1..]).None? then None
    else Some((width.value, Decode(code[at + 1..]).value))
  }

  /** The dots the script draws. */
  function Drawn(n: nat, raw: seq<Byte>): Bitmap {
    seq(n, y requires 0 <= y < n => seq(n, x requires 0 <= x < n => Bit(raw, Index(n, y, x))))
  }

  lemma {:induction false} ColonAfter(d: string, rest: string)
    requires forall i :: 0 <= i < |d| ==> d[i] != ':'
    ensures Colon(d + [':'] + rest) == |d|
  {
    if d == [] {
      assert (d + [':'] + rest)[0] == ':';
    } else {
      assert (d + [':'] + rest)[0] == d[0];
      assert (d + [':'] + rest)[1..] == d[1..] + [':'] + rest;
      ColonAfter(d[1..], rest);
    }
  }

  lemma CodeParses(d: Bitmap)
    requires Square(d) && |d| < ListField.UINT64
    ensures Parse(Code(d)) == Some((|d|, Bytes(d)))
  {
    var w, rest := ListField.Decimal(|d|), Encode(Bytes(d));
    assert forall i :: 0 <= i < |w| ==> ListField.Digit(w[i]);
    ColonAfter(w, rest);
    assert Code(d)[..|w|] == w && Code(d)[|w| + 1..] == rest;
    ListField.DecimalRoundTrip(|d|);
    EncodeDecodes(Bytes(d));
  }

  lemma EnoughBytes(n: nat)
    ensures n * n <= 8 * ByteCount(n)
  {
    var m := n * n;
    assert m <= 8 * ((m + 7) / 8);
  }

  lemma OnAt(d: Bitmap, y: nat, x: nat)
    requires Square(d) && y < |d| && x < |d|
    ensures On(d, Index(|d|, y, x)) <==> d[y][x]
  {
    Position(|d|, y, x);
  }

  lemma DrawnDot(d: Bitmap, y: nat, x: nat)
    requires Square(d) && y < |d| && x < |d|
    ensures Bit(Bytes(d), Index(|d|, y, x)) <==> d[y][x]
  {
    var b, i := Bytes(d), Index(|d|, y, x);
    Position(|d|, y, x);
    EnoughBytes(|d|);
    BytesHold(d);
    OnAt(d, y, x);
    assert i < 8 * |b|;
  }

  /** What the page draws is the code that was packed, dot for dot, whatever its size. */
  lemma DrawnIsPacked(d: Bitmap)
    requires Square(d) && |d| < ListField.UINT64
    ensures Parse(Code(d)).Some? && Drawn(Parse(Code(d)).value.0, Parse(Code(d)).value.1) == d
  {
    CodeParses(d);
    var out := Drawn(|d|, Bytes(d));
    forall y | 0 <= y < |d| ensures out[y] == d[y] {
      forall x | 0 <= x < |d| ensures out[y][x] == d[y][x] {
        DrawnDot(d, y, x);
      }
    }
  }

  /** The first i dots looked at are drawn. */
  ghost predicate DrawnTo(canvas: array2<bool>, n: nat, raw: seq<Byte>, i: nat)
    requires canvas.Length0 == n && canvas.Length1 == n
    reads canvas
  {
    forall y, x :: 0 <= y < n && 0 <= x < n ==> (canvas[y, x] <==> Index(n, y, x) < i && Bit(raw, Index(n, y, x)))
  }

  lemma DotPlace(n: nat, i: nat)
    requires i < n * n
    ensures n > 0 && i / n < n && i == Index(n, i / n, i % n)
  {
    assert n > 0;
    var q := i / n;
    assert i == q * n + i % n;
    assert (n - q) * n > 0;
    PositiveFactor(n - q, n);
  }

  lemma PositiveFactor(k: int, n: nat)
    requires k * n > 0
    ensures k > 0
  {
  }

  lemma OnlyPlace(n: nat, i: nat, y: nat, x: nat)
    requires n > 0 && y < n && x < n && Index(n, y, x) == i
    ensures y == i / n && x == i % n
  {
    Position(n, y, x);
  }

  method DrawDot(canvas: array2<bool>, n: nat, raw: seq<Byte>, i: nat)
    requires canvas.Length0 == n && canvas.Length1 == n && i < n * n && DrawnTo(canvas, n, raw, i)
    modifies canvas
    ensures DrawnTo(canvas, n, raw, i + 1)
  {
    DotPlace(n, i);
    if Bit(raw, i) {
      canvas[i / n, i % n] := true;
    }
    forall y, x | 0 <= y < n && 0 <= x < n
      ensures canvas[y, x] <==> Index(n, y, x) < i + 1 && Bit(raw, Index(n, y, x))
    {
      if Index(n, y, x) == i {
        OnlyPlace(n, i, y, x);
      }
    }
  }

  /** Draw a pattern: every dot of the square looked at once, in order. */
  method Draw(n: nat, raw: seq<Byte>) returns (canvas: array2<bool>)
    ensures canvas.Length0 == n && canvas.Length1 == n
    ensures forall y, x :: 0 <= y < n && 0 <= x < n ==> canvas[y, x] == Drawn(n, raw)[y][x]
  {
    canvas := new bool[n, n]((_, _) => false);
    var i := 0;
    while i < n * n
      invariant 0 <= i <= n * n && canvas.Length0 == n && canvas.Length1 == n && fresh(canvas)
      invariant DrawnTo(canvas, n, raw, i)
    {
      DrawDot(canvas, n, raw, i);
      i := i + 1;
    }
    forall y, x | 0 <= y < n && 0 <= x < n ensures canvas[y, x] == Drawn(n, raw)[y][x] {
      Position(n, y, x);
    }
  }

  // ---- the patterns kept ----

  const KEPT := 8192

  /** What a text's pattern is, worked out afresh: nothing for no text, and for text that makes no code. */
  function Fresh(qr: string -> Option<Bitmap>, text: string): string
    requires forall t :: qr(t).Some? ==> Square(qr(t).value)
  {
    if text == "" || qr(text).None? then "" else Code(qr(text).value)
  }

  class Patterns<Digest(==,!new)> {
    const qr: string -> Option<Bitmap>
    const digest: string -> Digest
    var kept: map<Digest, string>

    ghost predicate Sound() {
      && (forall t :: qr(t).Some? ==> Square(qr(t).value))
      && (forall a, b :: digest(a) == digest(b) ==> a == b)
    }

    /** What is kept is bounded, and is what working it out again would give. */
    ghost predicate Valid()
      reads this
    {
      && Sound() && |kept| <= KEPT
      && forall t :: digest(t) in kept ==> kept[digest(t)] == Fresh(qr, t) && t != "" && qr(t).Some?
    }

    constructor (qr: string -> Option<Bitmap>, digest: string -> Digest)
      requires forall t :: qr(t).Some? ==> Square(qr(t).value)
      requires forall a, b :: digest(a) == digest(b) ==> a == b
      ensures Valid() && kept == map[]
    {
      this.qr, this.digest, kept := qr, digest, map[];
    }

    /** The second time the lock is held: room is made by dropping any one, then the code is kept.
        Other requests may have come in between, so nothing is asked of what is kept but `Valid`. */
    method Keep(text: string, code: string)
      requires Valid() && text != "" && qr(text).Some? && code == Fresh(qr, text)
      modifies this
      ensures Valid() && digest(text) in kept && kept[digest(text)] == code
      ensures forall k :: k in kept ==> k == digest(text) || (k in old(kept) && kept[k] == old(kept)[k])
      ensures |old(kept)| < KEPT ==> old(kept).Keys <= kept.Keys
    {
      var before := kept;
      if |kept| >= KEPT {
        var k :| k in kept;
        kept := kept - {k};
        DropOne(before, k);
      }
      var room := kept;
      kept := kept[digest(text) := code];
      AddOne(room, digest(text), code);
    }

    method Of(text: string) returns (code: string)
      requires Valid()
      modifies this
      ensures Valid() && code == Fresh(qr, text)
      ensures text == "" || qr(text).None? || digest(text) in old(kept) ==> kept == old(kept)
    {
      if text == "" {
        return "";
      }
      if digest(text) in kept {
        return kept[digest(text)];
      }
      match qr(text)
      case None => return "";
      case Some(dots) =>
        code := Pack(dots);
        Keep(text, code);
    }
  }

  lemma DropOne<K, V>(m: map<K, V>, k: K)
    requires k in m
    ensures |m - {k}| == |m| - 1
  {
    assert (m - {k}).Keys == m.Keys - {k};
  }

  lemma AddOne<K, V>(m: map<K, V>, k: K, v: V)
    ensures |m[k := v]| <= |m| + 1
  {
    assert m[k := v].Keys == m.Keys + {k};
  }
}
