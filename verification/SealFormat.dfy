/**
  The sealed archive format: how a plaintext is cut into chunks, the nonce each
  chunk is sealed under, and the bytes that result.

  AES-256-GCM is an ideal functionality: `Ideal(a, log)` says that `a` opens
  what a session sealed (its `log`) and nothing else.
 */
module SealFormat {
  import opened Prelude

  const MAGIC: seq<Byte> := [87, 85, 73, 66, 65, 75, 49, 10] // "WUIBAK1\n"
  const SALT_SIZE := 16
  const NONCE_BASE := 7
  const OVERHEAD := 16 // the GCM tag
  const CHUNK := 65536
  const FULL := 65552 // a sealed full chunk: CHUNK + OVERHEAD
  const MAX_COUNTER := 0xFFFF_FFFF
  const COUNTERS := 0x1_0000_0000

  /** The AEAD under one key, as functions of a nonce and a text. */
  datatype Aead = Aead(seal: (seq<Byte>, seq<Byte>) -> seq<Byte>,
                       open: (seq<Byte>, seq<Byte>) -> Option<seq<Byte>>)

  /** One chunk a session sealed. */
  datatype Entry = Entry(nonce: seq<Byte>, plain: seq<Byte>)

  /** What a session sealed opens to itself, and nothing else opens at all. */
  ghost predicate Ideal(a: Aead, log: seq<Entry>) {
    && (forall n, p :: |a.seal(n, p)| == |p| + OVERHEAD)
    && (forall i :: 0 <= i < |log| ==>
          a.open(log[i].nonce, a.seal(log[i].nonce, log[i].plain)) == Some(log[i].plain))
    && (forall n, c :: a.open(n, c).Some? ==>
          exists i :: 0 <= i < |log| && log[i].nonce == n && a.seal(n, log[i].plain) == c)
  }

  function BigEndian(c: nat): (b: seq<Byte>)
    requires c < COUNTERS
    ensures |b| == 4
  {
    [c / 0x100_0000, c / 0x1_0000 % 256, c / 256 % 256, c % 256]
  }

  function Nonce(base: seq<Byte>, counter: nat, last: bool): (n: seq<Byte>)
    requires counter < COUNTERS
    ensures |n| == |base| + 5
  {
    base + BigEndian(counter) + [if last then 1 else 0]
  }

  /** No two (counter, last) pairs share a nonce within a session. */
  lemma NonceInjective(base: seq<Byte>, c: nat, last: bool, c': nat, last': bool)
    requires c < COUNTERS && c' < COUNTERS
    requires Nonce(base, c, last) == Nonce(base, c', last')
    ensures c == c' && last == last'
  {
    var n, n' := Nonce(base, c, last), Nonce(base, c', last');
    var k := |base|;
    assert forall j :: 0 <= j < 4 ==> n[k + j] == BigEndian(c)[j] && n'[k + j] == BigEndian(c')[j];
    assert n[k + 4] == (if last then 1 else 0) && n'[k + 4] == (if last' then 1 else 0);
    assert BigEndian(c)[0] == BigEndian(c')[0] && BigEndian(c)[1] == BigEndian(c')[1]
        && BigEndian(c)[2] == BigEndian(c')[2] && BigEndian(c)[3] == BigEndian(c')[3] by {
      assert n[k + 0] == n'[k + 0] && n[k + 1] == n'[k + 1] && n[k + 2] == n'[k + 2] && n[k + 3] == n'[k + 3];
    }
    BigEndianValue(c);
    BigEndianValue(c');
  }

  lemma BigEndianValue(c: nat)
    requires c < COUNTERS
    ensures var b := BigEndian(c); c == b[0] as int * 0x100_0000 + b[1] as int * 0x1_0000 + b[2] as int * 256 + b[3] as int
  {
    assert c / 0x1_0000 == c / 256 / 256;
    assert c / 0x100_0000 == c / 256 / 256 / 256;
  }

  // ---- how a text is cut into chunks ----

  /** Where chunk `i` starts: i times CHUNK. */
  function Offset(i: nat): nat {
    65536 * i
  }

  /** A text is sealed in full chunks, all but the last one; an empty text is one empty chunk. */
  function ChunkCount(text: seq<Byte>): (n: nat)
    ensures n >= 1 && Offset(n - 1) <= |text| <= Offset(n)
    ensures n > 1 ==> Offset(n - 1) < |text|
  {
    if |text| == 0 then 1 else (|text| + CHUNK - 1) / CHUNK
  }

  /** The sealer's counter refuses a text of more chunks than this. */
  predicate Sealable(text: seq<Byte>) {
    ChunkCount(text) <= MAX_COUNTER
  }

  predicate IsLast(text: seq<Byte>, i: nat) {
    i + 1 == ChunkCount(text)
  }

  function ChunkAt(text: seq<Byte>, i: nat): (c: seq<Byte>)
    requires i < ChunkCount(text)
    ensures |c| <= CHUNK && (!IsLast(text, i) ==> |c| == CHUNK)
    ensures Offset(i) + |c| <= |text| && c == text[Offset(i)..Offset(i) + |c|]
    ensures IsLast(text, i) ==> Offset(i) + |c| == |text|
  {
    text[Offset(i)..Min(Offset(i) + CHUNK, |text|)]
  }

  ghost function EntryAt(base: seq<Byte>, text: seq<Byte>, i: nat): Entry
    requires Sealable(text) && i < ChunkCount(text)
  {
    Entry(Nonce(base, i, IsLast(text, i)), ChunkAt(text, i))
  }

  /** What a session that sealed `text` put through the AEAD. */
  ghost function Log(base: seq<Byte>, text: seq<Byte>): seq<Entry>
    requires Sealable(text)
  {
    seq(ChunkCount(text), i requires 0 <= i < ChunkCount(text) => EntryAt(base, text, i))
  }

  /** The sealed bytes of chunk `i`. */
  ghost function SealedAt(a: Aead, base: seq<Byte>, text: seq<Byte>, i: nat): seq<Byte>
    requires Sealable(text) && i < ChunkCount(text)
  {
    a.seal(Nonce(base, i, IsLast(text, i)), ChunkAt(text, i))
  }

  /** The sealed bytes of chunks `i` and on. */
  ghost function Body(a: Aead, base: seq<Byte>, text: seq<Byte>, i: nat): seq<Byte>
    requires Sealable(text) && i <= ChunkCount(text)
    decreases ChunkCount(text) - i
  {
    if i == ChunkCount(text) then [] else SealedAt(a, base, text, i) + Body(a, base, text, i + 1)
  }

  /** The sealed bytes of the chunks before `i`. */
  ghost function BodyUpTo(a: Aead, base: seq<Byte>, text: seq<Byte>, i: nat): seq<Byte>
    requires Sealable(text) && i <= ChunkCount(text)
  {
    if i == 0 then [] else BodyUpTo(a, base, text, i - 1) + SealedAt(a, base, text, i - 1)
  }

  lemma {:induction false} BodySplits(a: Aead, base: seq<Byte>, text: seq<Byte>, i: nat)
    requires Sealable(text) && i <= ChunkCount(text)
    ensures BodyUpTo(a, base, text, i) + Body(a, base, text, i) == Body(a, base, text, 0)
  {
    if i > 0 {
      BodySplits(a, base, text, i - 1);
      assert BodyUpTo(a, base, text, i - 1) + (SealedAt(a, base, text, i - 1) + Body(a, base, text, i))
          == BodyUpTo(a, base, text, i) + Body(a, base, text, i);
    }
  }

  /** A whole sealed file. */
  ghost function File(a: Aead, salt: seq<Byte>, base: seq<Byte>, text: seq<Byte>): seq<Byte>
    requires Sealable(text)
  {
    MAGIC + salt + base + Body(a, base, text, 0)
  }

  /** What the ideal AEAD means for a session: in every place, what opens is the chunk sealed for
      that place, under the mark it was sealed with. */
  ghost predicate Honest(a: Aead, base: seq<Byte>, text: seq<Byte>)
    requires Sealable(text)
  {
    && (forall i: nat :: i < ChunkCount(text) ==>
          && |SealedAt(a, base, text, i)| == |ChunkAt(text, i)| + OVERHEAD
          && a.open(Nonce(base, i, IsLast(text, i)), SealedAt(a, base, text, i)) == Some(ChunkAt(text, i)))
    && (forall i: nat, last, sealed :: i < COUNTERS && a.open(Nonce(base, i, last), sealed).Some? ==>
          i < ChunkCount(text) && last == IsLast(text, i) && sealed == SealedAt(a, base, text, i))
  }

  lemma IdealIsHonest(a: Aead, base: seq<Byte>, text: seq<Byte>)
    requires Sealable(text) && Ideal(a, Log(base, text))
    ensures Honest(a, base, text)
  {
    var log := Log(base, text);
    forall i: nat | i < ChunkCount(text)
      ensures |SealedAt(a, base, text, i)| == |ChunkAt(text, i)| + OVERHEAD
      ensures a.open(Nonce(base, i, IsLast(text, i)), SealedAt(a, base, text, i)) == Some(ChunkAt(text, i))
    {
      assert log[i] == EntryAt(base, text, i);
    }
    forall i: nat, last, sealed | i < COUNTERS && a.open(Nonce(base, i, last), sealed).Some?
      ensures i < ChunkCount(text) && last == IsLast(text, i) && sealed == SealedAt(a, base, text, i)
    {
      var n := Nonce(base, i, last);
      var k :| 0 <= k < |log| && log[k].nonce == n && a.seal(n, log[k].plain) == sealed;
      NonceInjective(base, k, IsLast(text, k), i, last);
    }
  }

  /** The ideal AEAD exists for every session: the assumption is never void. */
  lemma IdealIsAttainable(base: seq<Byte>, text: seq<Byte>)
    requires Sealable(text)
    ensures exists a :: Ideal(a, Log(base, text))
  {
    var log := Log(base, text);
    var tag := seq(OVERHEAD, _ => 0 as Byte);
    var seal := (n: seq<Byte>, p: seq<Byte>) => p + tag;
    var open := (n: seq<Byte>, c: seq<Byte>) =>
      if exists i :: 0 <= i < |log| && log[i].nonce == n && log[i].plain + tag == c
      then Some(c[..|c| - |tag|]) else None;
    var a := Aead(seal, open);
    forall i | 0 <= i < |log|
      ensures a.open(log[i].nonce, a.seal(log[i].nonce, log[i].plain)) == Some(log[i].plain)
    {
      assert (log[i].plain + tag)[..|log[i].plain|] == log[i].plain;
    }
    assert Ideal(a, log);
  }
}
