/**
  The reader of a sealed archive. `Cursor`, `Next` and `ReadStep` say what one
  call does on values; the class `Opener` is the reader itself, and the lemmas
  are about every sequence of calls on every byte string.
 */
module Opening {
  import opened Prelude
  import opened SealFormat

  /** Where a reader is: the bytes not read yet, and its own fields. */
  datatype Cursor = Cursor(rest: seq<Byte>, counter: nat, plain: seq<Byte>, done: bool)

  function Start(tail: seq<Byte>): Cursor {
    Cursor(tail, 0, [], false)
  }

  /** Open the following chunk; false is a refusal, after which the bytes tried are gone. */
  function Next(a: Aead, base: seq<Byte>, c: Cursor): (r: (Cursor, bool))
    requires c.counter < COUNTERS
    ensures r.0.counter < COUNTERS
    ensures r.1 ==> |r.0.rest| < |c.rest|
    ensures !r.1 ==> r.0 == c.(rest := r.0.rest)
  {
    var n := Min(|c.rest|, FULL);
    var sealed, rest := c.rest[..n], c.rest[n..];
    if n < OVERHEAD then
      (c.(rest := rest), false)
    else
      var last := a.open(Nonce(base, c.counter, true), sealed);
      if last.Some? then
        if rest != [] then (c.(rest := rest[1..]), false)
        else (Cursor(rest, (c.counter + 1) % COUNTERS, last.value, true), true)
      else if n < FULL then
        (c.(rest := rest), false)
      else
        var more := a.open(Nonce(base, c.counter, false), sealed);
        if more.None? then (c.(rest := rest), false)
        else (Cursor(rest, (c.counter + 1) % COUNTERS, more.value, c.done), true)
  }

  datatype Outcome = Data(bytes: seq<Byte>) | Eof | Refused

  /** One read into a buffer of `len` bytes. */
  function ReadStep(a: Aead, base: seq<Byte>, c: Cursor, len: nat): (r: (Cursor, Outcome))
    requires c.counter < COUNTERS
    ensures r.0.counter < COUNTERS
    decreases |c.rest|
  {
    if c.plain == [] then
      if c.done then (c, Eof)
      else
        var (c', ok) := Next(a, base, c);
        if ok then ReadStep(a, base, c', len) else (c', Refused)
    else
      var k := Min(len, |c.plain|);
      (c.(plain := c.plain[k..]), Data(c.plain[..k]))
  }

  /** What a sequence of reads, of any buffer sizes, answers; it goes on after a refusal. */
  function Outcomes(a: Aead, base: seq<Byte>, c: Cursor, lens: seq<nat>): (os: seq<Outcome>)
    requires c.counter < COUNTERS
    ensures |os| == |lens|
    decreases |lens|
  {
    if lens == [] then []
    else
      var (c', o) := ReadStep(a, base, c, lens[0]);
      [o] + Outcomes(a, base, c', lens[1..])
  }

  /** The bytes a sequence of answers handed out. */
  function Handed(os: seq<Outcome>): seq<Byte> {
    if os == [] then []
    else Bytes(os[0]) + Handed(os[1..])
  }

  predicate AllPositive(lens: seq<nat>) {
    forall k :: 0 <= k < |lens| ==> lens[k] > 0
  }

  function Bytes(o: Outcome): seq<Byte> {
    if o.Data? then o.bytes else []
  }

  lemma HandedStep(given: seq<Byte>, o: Outcome, os: seq<Outcome>)
    ensures given + Handed([o] + os) == given + Bytes(o) + Handed(os)
  {
    assert ([o] + os)[1..] == os;
    assert given + (Bytes(o) + Handed(os)) == given + Bytes(o) + Handed(os);
  }

  // ---- nothing but a prefix of what was sealed is ever handed out ----

  /** `given` has been handed out, and with what is opened it is the text up to a chunk's edge. */
  ghost predicate Tracks(text: seq<Byte>, given: seq<Byte>, c: Cursor) {
    if c.done then c.counter == ChunkCount(text) && given + c.plain == text
    else c.counter < ChunkCount(text) && given + c.plain == text[..Offset(c.counter)]
  }

  /** Opening a chunk keeps the place, and a chunk that opens is the one sealed there. */
  lemma NextTracks(a: Aead, base: seq<Byte>, text: seq<Byte>, given: seq<Byte>, c: Cursor)
    requires Sealable(text) && Honest(a, base, text)
    requires Tracks(text, given, c) && c.plain == [] && !c.done
    ensures Tracks(text, given, Next(a, base, c).0)
    ensures Next(a, base, c).1 ==>
              && c.rest == SealedAt(a, base, text, c.counter) + Next(a, base, c).0.rest
              && Next(a, base, c).0.counter == c.counter + 1
              && (Next(a, base, c).0.done ==> Next(a, base, c).0.rest == [])
  {
    var (c', ok) := Next(a, base, c);
    if ok {
      var n := Min(|c.rest|, FULL);
      var chunk := ChunkAt(text, c.counter);
      assert c.rest == c.rest[..n] + c.rest[n..];
      assert c.rest[..n] == SealedAt(a, base, text, c.counter);
      assert c'.plain == chunk;
      assert given == text[..Offset(c.counter)];
      assert given + chunk == text[..Offset(c.counter) + |chunk|];
    }
  }

  lemma {:induction false} ReadTracks(a: Aead, base: seq<Byte>, text: seq<Byte>, given: seq<Byte>, c: Cursor, len: nat)
    requires Sealable(text) && Honest(a, base, text) && Tracks(text, given, c)
    ensures var (c', o) := ReadStep(a, base, c, len);
            && Tracks(text, given + Bytes(o), c')
            && (o.Eof? ==> given == text)
    decreases |c.rest|
  {
    var (c', o) := ReadStep(a, base, c, len);
    if c.plain == [] && !c.done {
      NextTracks(a, base, text, given, c);
      var (c1, ok) := Next(a, base, c);
      if ok {
        ReadTracks(a, base, text, given, c1, len);
      } else {
        assert given + [] == given;
      }
    } else if c.plain != [] {
      var k := Min(len, |c.plain|);
      assert given + c.plain[..k] + c.plain[k..] == given + c.plain;
    } else {
      assert given + [] == given;
    }
  }

  lemma {:induction false} OutcomesArePrefix(a: Aead, base: seq<Byte>, text: seq<Byte>, given: seq<Byte>, c: Cursor, lens: seq<nat>)
    requires Sealable(text) && Honest(a, base, text) && Tracks(text, given, c)
    ensures given + Handed(Outcomes(a, base, c, lens)) <= text
    decreases |lens|
  {
    if lens == [] {
      assert given + [] <= text;
    } else {
      var (c', o) := ReadStep(a, base, c, lens[0]);
      ReadTracks(a, base, text, given, c, lens[0]);
      var given' := given + Bytes(o);
      OutcomesArePrefix(a, base, text, given', c', lens[1..]);
      HandedStep(given, o, Outcomes(a, base, c', lens[1..]));
    }
  }

  /** Whatever bytes follow the header, and however often a caller reads on after a refusal,
      what is handed out is a prefix of the text that was sealed. */
  lemma NothingForged(a: Aead, base: seq<Byte>, text: seq<Byte>, tail: seq<Byte>, lens: seq<nat>)
    requires Sealable(text) && Ideal(a, Log(base, text))
    ensures Handed(Outcomes(a, base, Next(a, base, Start(tail)).0, lens)) <= text
  {
    IdealIsHonest(a, base, text);
    var c := Start(tail);
    assert Tracks(text, [], c);
    NextTracks(a, base, text, [], c);
    var c1 := Next(a, base, c).0;
    OutcomesArePrefix(a, base, text, [], c1, lens);
    assert [] + Handed(Outcomes(a, base, c1, lens)) == Handed(Outcomes(a, base, c1, lens));
  }

  // ---- the end is reached on the sealed bytes and on no others ----

  /** The bytes still to be read are exactly the chunks still to be opened. */
  ghost predicate OnCourse(a: Aead, base: seq<Byte>, text: seq<Byte>, c: Cursor)
    requires Sealable(text)
  {
    c.counter <= ChunkCount(text) && c.rest == Body(a, base, text, c.counter)
  }

  /** A chunk that opens under its own mark, whole and in its place, is opened. */
  lemma NextOpens(a: Aead, base: seq<Byte>, c: Cursor, sealed: seq<Byte>, rest: seq<Byte>, last: bool, plain: seq<Byte>)
    requires c.counter < COUNTERS && c.rest == sealed + rest && OVERHEAD <= |sealed| <= FULL
    requires if last then rest == [] else |sealed| == FULL
    requires a.open(Nonce(base, c.counter, last), sealed) == Some(plain)
    requires !last ==> a.open(Nonce(base, c.counter, true), sealed).None?
    ensures Next(a, base, c) == (Cursor(rest, (c.counter + 1) % COUNTERS, plain, last || c.done), true)
  {
    var n := Min(|c.rest|, FULL);
    assert c.rest[..n] == sealed && c.rest[n..] == rest;
  }

  /** A chunk opens in its place under its own mark and no other. */
  lemma OpensInPlace(a: Aead, base: seq<Byte>, text: seq<Byte>, i: nat)
    requires Sealable(text) && Honest(a, base, text) && i < ChunkCount(text)
    ensures a.open(Nonce(base, i, IsLast(text, i)), SealedAt(a, base, text, i)) == Some(ChunkAt(text, i))
    ensures a.open(Nonce(base, i, !IsLast(text, i)), SealedAt(a, base, text, i)).None?
  {
    hide Nonce, SealedAt, ChunkAt, IsLast;
  }

  lemma SealedSize(a: Aead, base: seq<Byte>, text: seq<Byte>, i: nat)
    requires Sealable(text) && Honest(a, base, text) && i < ChunkCount(text)
    ensures OVERHEAD <= |SealedAt(a, base, text, i)| <= FULL && (!IsLast(text, i) ==> |SealedAt(a, base, text, i)| == FULL)
  {
    hide Nonce, SealedAt;
  }

  lemma BodyStep(a: Aead, base: seq<Byte>, text: seq<Byte>, i: nat)
    requires Sealable(text) && i < ChunkCount(text)
    ensures Body(a, base, text, i) == SealedAt(a, base, text, i) + Body(a, base, text, i + 1)
    ensures IsLast(text, i) ==> Body(a, base, text, i + 1) == []
  {
    hide SealedAt;
  }

  /** On the sealed bytes no chunk is refused. */
  lemma NextOnCourse(a: Aead, base: seq<Byte>, text: seq<Byte>, c: Cursor)
    requires Sealable(text) && Honest(a, base, text)
    requires c.counter < ChunkCount(text) && OnCourse(a, base, text, c)
    ensures Next(a, base, c).1 && OnCourse(a, base, text, Next(a, base, c).0)
  {
    hide Next, Honest, Nonce, SealedAt, ChunkAt, Body, ChunkCount;
    var i := c.counter;
    OpensInPlace(a, base, text, i);
    SealedSize(a, base, text, i);
    BodyStep(a, base, text, i);
    NextOpens(a, base, c, SealedAt(a, base, text, i), Body(a, base, text, i + 1), IsLast(text, i), ChunkAt(text, i));
  }

  lemma {:induction false} ReadOnCourse(a: Aead, base: seq<Byte>, text: seq<Byte>, given: seq<Byte>, c: Cursor, len: nat)
    requires Sealable(text) && Honest(a, base, text) && Tracks(text, given, c) && OnCourse(a, base, text, c)
    ensures var (c', o) := ReadStep(a, base, c, len);
            && OnCourse(a, base, text, c') && !o.Refused?
            && (o.Eof? ==> c'.done && c'.plain == [])
            && (len > 0 && o.Data? ==> o.bytes != [])
    decreases |c.rest|
  {
    if c.plain == [] && !c.done {
      NextTracks(a, base, text, given, c);
      NextOnCourse(a, base, text, c);
      ReadOnCourse(a, base, text, given, Next(a, base, c).0, len);
      assert !Next(a, base, c).0.done ==> Next(a, base, c).0.plain != [];
    }
  }

  lemma GivenWithin(text: seq<Byte>, given: seq<Byte>, c: Cursor)
    requires Tracks(text, given, c)
    ensures given <= text && (Sealable(text) ==> c.counter < COUNTERS)
  {
  }

  lemma NoneHanded(given: seq<Byte>)
    ensures given + Handed([]) == given
  {
  }

  /** From a reader on course, any reads hand out the text in order, refuse nothing, and
      with non-empty buffers reach its end. */
  lemma {:induction false} OutcomesOnCourse(a: Aead, base: seq<Byte>, text: seq<Byte>, given: seq<Byte>, c: Cursor, lens: seq<nat>)
    requires Sealable(text) && Honest(a, base, text) && Tracks(text, given, c) && OnCourse(a, base, text, c)
    ensures var os := Outcomes(a, base, c, lens);
            && Refused !in os
            && (Eof in os ==> given + Handed(os) == text)
            && (|lens| > |text| - |given| && AllPositive(lens) ==> Eof in os)
    decreases |lens|
  {
    hide Honest, Next, ReadStep, Body, ChunkCount, SealedAt, Tracks, OnCourse, Handed;
    GivenWithin(text, given, c);
    if lens == [] {
      assert given + Handed([]) == given by { NoneHanded(given); }
    } else {
      var (c', o) := ReadStep(a, base, c, lens[0]);
      var os := Outcomes(a, base, c, lens);
      ReadTracks(a, base, text, given, c, lens[0]);
      ReadOnCourse(a, base, text, given, c, lens[0]);
      var given' := given + Bytes(o);
      OutcomesOnCourse(a, base, text, given', c', lens[1..]);
      HandedStep(given, o, Outcomes(a, base, c', lens[1..]));
      assert os == [o] + Outcomes(a, base, c', lens[1..]);
      if o.Eof? {
        AtEnd(a, base, c', lens[1..]);
        assert os[0] == Eof;
      }
    }
  }

  /** Once at the end, every further read says so and hands out nothing. */
  lemma {:induction false} AtEnd(a: Aead, base: seq<Byte>, c: Cursor, lens: seq<nat>)
    requires c.counter < COUNTERS && c.done && c.plain == []
    ensures Handed(Outcomes(a, base, c, lens)) == []
    decreases |lens|
  {
    if lens != [] {
      AtEnd(a, base, c, lens[1..]);
      assert Outcomes(a, base, c, lens)[1..] == Outcomes(a, base, c, lens[1..]);
    }
  }

  /** A read that answers without a refusal leaves a reader whose course ends in the text's
      bytes only if the reader it was given had that course too. */
  lemma {:induction false} ReadBackOnCourse(a: Aead, base: seq<Byte>, text: seq<Byte>, given: seq<Byte>, c: Cursor, len: nat)
    requires Sealable(text) && Honest(a, base, text) && Tracks(text, given, c)
    requires c.done ==> c.rest == []
    ensures var (c', o) := ReadStep(a, base, c, len);
            && (c'.done ==> c'.rest == [])
            && (!o.Refused? && OnCourse(a, base, text, c') ==> OnCourse(a, base, text, c))
    decreases |c.rest|
  {
    if c.plain == [] && !c.done {
      NextTracks(a, base, text, given, c);
      var (c1, ok) := Next(a, base, c);
      if ok {
        ReadBackOnCourse(a, base, text, given, c1, len);
      }
    }
  }

  lemma {:induction false} EofBackOnCourse(a: Aead, base: seq<Byte>, text: seq<Byte>, given: seq<Byte>, c: Cursor, lens: seq<nat>)
    requires Sealable(text) && Honest(a, base, text) && Tracks(text, given, c)
    requires c.done ==> c.rest == []
    requires var os := Outcomes(a, base, c, lens); Refused !in os && Eof in os
    ensures OnCourse(a, base, text, c)
    decreases |lens|
  {
    var (c', o) := ReadStep(a, base, c, lens[0]);
    var os := Outcomes(a, base, c, lens);
    assert os == [o] + Outcomes(a, base, c', lens[1..]);
    assert os[0] == o && !o.Refused?;
    ReadTracks(a, base, text, given, c, lens[0]);
    ReadBackOnCourse(a, base, text, given, c, lens[0]);
    if o.Eof? {
      EofIsDone(a, base, c, lens[0]);
      assert OnCourse(a, base, text, c');
    } else {
      var given' := given + Bytes(o);
      EofBackOnCourse(a, base, text, given', c', lens[1..]);
    }
  }

  lemma {:induction false} EofIsDone(a: Aead, base: seq<Byte>, c: Cursor, len: nat)
    requires c.counter < COUNTERS && ReadStep(a, base, c, len).1.Eof?
    ensures ReadStep(a, base, c, len).0.done
    decreases |c.rest|
  {
    if c.plain == [] && !c.done {
      EofIsDone(a, base, Next(a, base, c).0, len);
    }
  }

  lemma EndMeansSealed(a: Aead, base: seq<Byte>, text: seq<Byte>, tail: seq<Byte>, lens: seq<nat>)
    requires Sealable(text) && Honest(a, base, text)
    requires Next(a, base, Start(tail)).1
    requires var os := Outcomes(a, base, Next(a, base, Start(tail)).0, lens); Refused !in os && Eof in os
    ensures tail == Body(a, base, text, 0)
  {
    var s := Start(tail);
    var c := Next(a, base, s).0;
    assert Tracks(text, [], s);
    NextTracks(a, base, text, [], s);
    EofBackOnCourse(a, base, text, [], c, lens);
  }

  lemma SealedDrains(a: Aead, base: seq<Byte>, text: seq<Byte>, lens: seq<nat>)
    requires Sealable(text) && Honest(a, base, text)
    ensures var (c, ok) := Next(a, base, Start(Body(a, base, text, 0)));
            var os := Outcomes(a, base, c, lens);
            && ok && Refused !in os
            && (Eof in os ==> Handed(os) == text)
            && (|lens| > |text| && AllPositive(lens) ==> Eof in os)
  {
    var s := Start(Body(a, base, text, 0));
    var c := Next(a, base, s).0;
    assert Tracks(text, [], s);
    NextTracks(a, base, text, [], s);
    NextOnCourse(a, base, text, s);
    OutcomesOnCourse(a, base, text, [], c, lens);
    var os := Outcomes(a, base, c, lens);
    assert [] + Handed(os) == Handed(os);
  }

  /** A reader that was refused nothing and reached the end was given exactly the sealed bytes;
      given those, it is refused nothing, and non-empty buffers drain the whole text. */
  lemma EndsOnSealedBytesOnly(a: Aead, base: seq<Byte>, text: seq<Byte>, tail: seq<Byte>, lens: seq<nat>)
    requires Sealable(text) && Ideal(a, Log(base, text))
    ensures var (c, ok) := Next(a, base, Start(tail));
            var os := Outcomes(a, base, c, lens);
            && (ok && Refused !in os && Eof in os ==> tail == Body(a, base, text, 0) && Handed(os) == text)
            && (tail == Body(a, base, text, 0) ==>
                  ok && Refused !in os && (|lens| > |text| && AllPositive(lens) ==> Eof in os && Handed(os) == text))
  {
    assert Honest(a, base, text) by { IdealIsHonest(a, base, text); }
    var (c, ok) := Next(a, base, Start(tail));
    var os := Outcomes(a, base, c, lens);
    if ok && Refused !in os && Eof in os {
      EndMeansSealed(a, base, text, tail, lens);
    }
    if tail == Body(a, base, text, 0) {
      SealedDrains(a, base, text, lens);
    }
  }

  /** The condition "refused nothing" is needed: a refusal is not remembered. For every text of two
      or more chunks, a foreign chunk put after the first one is refused once, and a caller that reads
      on is then handed the rest and told the end was reached. */
  lemma RefusalIsNotRemembered(a: Aead, base: seq<Byte>, text: seq<Byte>, foreign: seq<Byte>) returns (lens: seq<nat>)
    requires Sealable(text) && Honest(a, base, text) && ChunkCount(text) > 1
    requires |foreign| == FULL && foreign != SealedAt(a, base, text, 1)
    ensures var tail := SealedAt(a, base, text, 0) + foreign + Body(a, base, text, 1);
            var (c, ok) := Next(a, base, Start(tail));
            var os := Outcomes(a, base, c, lens);
            tail != Body(a, base, text, 0) && ok && Refused in os && Eof in os && Handed(os) == text
  {
    var first, rest := SealedAt(a, base, text, 0), Body(a, base, text, 1);
    var tail := first + foreign + rest;
    assert |tail| != |Body(a, base, text, 0)|;
    var c := AfterFirst(a, base, text, foreign + rest);
    assert tail == first + (foreign + rest);
    var ones := seq(|text| + 1, _ => 1);
    lens := [CHUNK, 1] + ones;
    var c1 := c.(plain := []);
    assert c.plain[..CHUNK] == c.plain && c.plain[CHUNK..] == [];
    assert ReadStep(a, base, c, CHUNK) == (c1, Data(c.plain));
    assert c1.rest[..FULL] == foreign && c1.rest[FULL..] == rest;
    var c2 := c1.(rest := rest);
    assert Next(a, base, c1) == (c2, false);
    assert ReadStep(a, base, c1, 1) == (c2, Refused);
    assert lens[1..] == [1] + ones && lens[1..][1..] == ones;
    var later := Outcomes(a, base, c2, ones);
    assert Outcomes(a, base, c1, lens[1..]) == [Refused] + later;
    assert Outcomes(a, base, c, lens) == [Data(c.plain)] + ([Refused] + later);
    assert c.plain + [] == c.plain && c.plain == text[..Offset(1)];
    OutcomesOnCourse(a, base, text, c.plain, c2, ones);
    HandedStep([], Data(c.plain), [Refused] + later);
    HandedStep(c.plain, Refused, later);
    var os := Outcomes(a, base, c, lens);
    assert os[1] == Refused;
    assert forall o :: o in later ==> o in os;
  }

  lemma AfterFirst(a: Aead, base: seq<Byte>, text: seq<Byte>, rest: seq<Byte>) returns (c: Cursor)
    requires Sealable(text) && Honest(a, base, text) && ChunkCount(text) > 1
    ensures c == Cursor(rest, 1, ChunkAt(text, 0), false)
    ensures Next(a, base, Start(SealedAt(a, base, text, 0) + rest)) == (c, true)
  {
    c := Cursor(rest, 1, ChunkAt(text, 0), false);
    var tail := SealedAt(a, base, text, 0) + rest;
    assert tail[..FULL] == SealedAt(a, base, text, 0) && tail[FULL..] == rest;
  }

  // ---- the whole file ----

  datatype OpenError = TooShort | NotSealed | NeedsPassword | WrongPassword

  /** Read the header, derive the key, and open the first chunk. `keys` is the key derivation. */
  function OpenSealed(keys: (string, seq<Byte>) -> Aead, password: string, file: seq<Byte>)
    : (r: Result<(Aead, seq<Byte>, Cursor), OpenError>)
    ensures r.Ok? ==> r.value.2.counter < COUNTERS
  {
    var head := |MAGIC| + SALT_SIZE + NONCE_BASE;
    if |file| < head then Err(TooShort)
    else if file[..|MAGIC|] != MAGIC then Err(NotSealed)
    else if password == "" then Err(NeedsPassword)
    else
      var a := keys(password, file[|MAGIC|..|MAGIC| + SALT_SIZE]);
      var base := file[|MAGIC| + SALT_SIZE..head];
      var (c, ok) := Next(a, base, Start(file[head..]));
      if ok then Ok((a, base, c)) else Err(WrongPassword)
  }

  lemma HeaderParses(salt: seq<Byte>, base: seq<Byte>, body: seq<Byte>)
    requires |salt| == SALT_SIZE && |base| == NONCE_BASE
    ensures var file := MAGIC + salt + base + body;
            var head := |MAGIC| + SALT_SIZE + NONCE_BASE;
            && |file| >= head && file[..|MAGIC|] == MAGIC
            && file[|MAGIC|..|MAGIC| + SALT_SIZE] == salt
            && file[|MAGIC| + SALT_SIZE..head] == base
            && file[head..] == body
  {
  }

  /** A file sealed under a password opens under it, and drains to the text, exactly when the
      password is not empty: one sealed under the empty password is answered `NeedsPassword`. */
  lemma SealedFileOpens(keys: (string, seq<Byte>) -> Aead, password: string, salt: seq<Byte>, base: seq<Byte>,
                        text: seq<Byte>, lens: seq<nat>)
    requires |salt| == SALT_SIZE && |base| == NONCE_BASE && Sealable(text)
    requires Ideal(keys(password, salt), Log(base, text))
    ensures var a := keys(password, salt);
            var r := OpenSealed(keys, password, File(a, salt, base, text));
            && (password == "" ==> r == Err(NeedsPassword))
            && (password != "" ==>
                  && r.Ok? && r.value.0 == a && r.value.1 == base
                  && var os := Outcomes(a, base, r.value.2, lens);
                     && Refused !in os
                     && (Eof in os ==> Handed(os) == text)
                     && (|lens| > |text| && AllPositive(lens) ==> Eof in os))
  {
    var a := keys(password, salt);
    HeaderParses(salt, base, Body(a, base, text, 0));
    IdealIsHonest(a, base, text);
    SealedDrains(a, base, text, lens);
  }

  /** A key that sealed nothing opens no file. */
  lemma WrongKeyOpensNothing(keys: (string, seq<Byte>) -> Aead, password: string, file: seq<Byte>)
    requires |file| >= |MAGIC| + SALT_SIZE ==> Ideal(keys(password, file[|MAGIC|..|MAGIC| + SALT_SIZE]), [])
    ensures OpenSealed(keys, password, file).Err?
  {
  }

  // ---- the reader itself ----

  datatype Status = Good | AtEof | BadChunk

  class Opener {
    const aead: Aead
    const base: seq<Byte>
    var rest: seq<Byte> // what the underlying reader still holds
    var counter: nat
    var plain: seq<Byte>
    var done: bool

    ghost function At(): Cursor
      reads this
    {
      Cursor(rest, counter, plain, done)
    }

    constructor (aead: Aead, base: seq<Byte>, tail: seq<Byte>)
      ensures this.aead == aead && this.base == base && At() == Start(tail)
    {
      this.aead, this.base, rest, counter, plain, done := aead, base, tail, 0, [], false;
    }

    method NextChunk() returns (ok: bool)
      requires counter < COUNTERS
      modifies this
      ensures (At(), ok) == Next(aead, base, old(At()))
    {
      var n := Min(|rest|, FULL);
      var sealed := rest[..n];
      rest := rest[n..];
      if n < OVERHEAD {
        return false;
      }
      var chunk := aead.open(Nonce(base, counter, true), sealed);
      if chunk.Some? {
        // A byte after the last chunk is read off and the chunk refused.
        if rest != [] {
          rest := rest[1..];
          return false;
        }
        plain, done := chunk.value, true;
        counter := (counter + 1) % COUNTERS;
        return true;
      }
      if n < FULL {
        return false;
      }
      chunk := aead.open(Nonce(base, counter, false), sealed);
      if chunk.None? {
        return false;
      }
      plain := chunk.value;
      counter := (counter + 1) % COUNTERS;
      return true;
    }

    method Read(p: array<Byte>) returns (n: nat, status: Status)
      requires counter < COUNTERS
      modifies this, p
      ensures var (c', o) := ReadStep(aead, base, old(At()), p.Length);
              && At() == c' && counter < COUNTERS
              && status == (match o case Data(_) => Good case Eof => AtEof case Refused => BadChunk)
              && n <= p.Length && p[..n] == Bytes(o) && p[n..] == old(p[..])[n..]
    {
      while plain == []
        invariant counter < COUNTERS && p[..] == old(p[..])
        invariant ReadStep(aead, base, At(), p.Length) == ReadStep(aead, base, old(At()), p.Length)
        decreases |rest|
      {
        if done {
          return 0, AtEof;
        }
        var ok := NextChunk();
        if !ok {
          return 0, BadChunk;
        }
      }
      n := Min(p.Length, |plain|);
      forall i | 0 <= i < n {
        p[i] := plain[i];
      }
      plain := plain[n..];
      status := Good;
    }
  }

  /** A read of a non-empty buffer gets somewhere: it takes bytes from the reader, or from the opened chunk. */
  lemma {:induction false} ReadAdvances(a: Aead, base: seq<Byte>, c: Cursor, len: nat)
    requires c.counter < COUNTERS && len > 0 && ReadStep(a, base, c, len).1.Data?
    ensures var c' := ReadStep(a, base, c, len).0;
            |c'.rest| < |c.rest| || (c'.rest == c.rest && |c'.plain| < |c.plain|)
    decreases |c.rest|
  {
    if c.plain == [] {
      ReadAdvances(a, base, Next(a, base, c).0, len);
    }
  }

  /** What one read does to a caller that drains the reader: it stays on the sealed bytes or off them. */
  lemma ReadKeepsCourse(a: Aead, base: seq<Byte>, text: seq<Byte>, given: seq<Byte>, c: Cursor, len: nat)
    requires Sealable(text) && Honest(a, base, text) && Tracks(text, given, c) && len > 0
    requires c.done ==> c.rest == []
    ensures var (c', o) := ReadStep(a, base, c, len);
            && Tracks(text, given + Bytes(o), c') && (c'.done ==> c'.rest == [])
            && (o.Eof? ==> given == text && OnCourse(a, base, text, c))
            && (o.Refused? ==> !OnCourse(a, base, text, c))
            && (o.Data? ==> (OnCourse(a, base, text, c') <==> OnCourse(a, base, text, c)))
  {
    ReadTracks(a, base, text, given, c, len);
    ReadBackOnCourse(a, base, text, given, c, len);
    if OnCourse(a, base, text, c) {
      ReadOnCourse(a, base, text, given, c, len);
    }
    if ReadStep(a, base, c, len).1.Eof? {
      EofIsDone(a, base, c, len);
    }
  }

  /** The first chunk puts a reader on course exactly when it was given the sealed bytes. */
  lemma FirstChunk(a: Aead, base: seq<Byte>, text: seq<Byte>, tail: seq<Byte>)
    requires Sealable(text) && Honest(a, base, text)
    ensures var (c, ok) := Next(a, base, Start(tail));
            if ok then Tracks(text, [], c) && (c.done ==> c.rest == [])
                       && (OnCourse(a, base, text, c) <==> tail == Body(a, base, text, 0))
            else tail != Body(a, base, text, 0)
  {
    assert Tracks(text, [], Start(tail));
    NextTracks(a, base, text, [], Start(tail));
    if tail == Body(a, base, text, 0) {
      NextOnCourse(a, base, text, Start(tail));
    }
  }

  /** Drain a reader through a buffer of any size. Whatever follows the header, what comes out is a
      prefix of the sealed text; it comes out whole, with no error, exactly on the sealed bytes. */
  method ReadAll(a: Aead, base: seq<Byte>, tail: seq<Byte>, size: nat, ghost text: seq<Byte>)
    returns (out: seq<Byte>, ok: bool)
    requires size > 0 && Sealable(text) && Ideal(a, Log(base, text))
    ensures out <= text
    ensures ok <==> tail == Body(a, base, text, 0)
    ensures ok ==> out == text
  {
    hide Ideal, Log, Honest, Next, ReadStep, Body, ChunkCount, Tracks, OnCourse;
    IdealIsHonest(a, base, text);
    FirstChunk(a, base, text, tail);
    var o := new Opener(a, base, tail);
    out := [];
    ok := o.NextChunk();
    if !ok {
      return;
    }
    var p := new Byte[size];
    while true
      invariant o.aead == a && o.base == base && Tracks(text, out, o.At()) && (o.done ==> o.rest == [])
      invariant OnCourse(a, base, text, o.At()) <==> tail == Body(a, base, text, 0)
      decreases |o.rest|, |o.plain|
    {
      GivenWithin(text, out, o.At());
      ReadKeepsCourse(a, base, text, out, o.At(), size);
      if ReadStep(a, base, o.At(), size).1.Data? {
        ReadAdvances(a, base, o.At(), size);
      }
      var n, status := o.Read(p);
      out := out + p[..n];
      GivenWithin(text, out, o.At());
      if status == AtEof {
        return out, true;
      }
      if status == BadChunk {
        return out, false;
      }
    }
  }
}
