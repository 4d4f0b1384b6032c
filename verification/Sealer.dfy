/**
  The writer of a sealed archive. Bytes arrive in any pieces; what reaches the
  sink after a successful `Close` depends only on their concatenation.
 */
module Sealing {
  import opened Prelude
  import opened SealFormat

  /** Where the sealed bytes go: a file or a pipe, which may stop taking them at any byte. */
  class Sink {
    var data: seq<Byte>
    ghost var failures: nat // the writes it failed
    ghost var refused: nat  // the bytes it did not take of them

    constructor ()
      ensures data == [] && failures == 0 && refused == 0
    {
      data, failures, refused := [], 0, 0;
    }

    method Put(p: seq<Byte>) returns (ok: bool)
      modifies this
      ensures failures == old(failures) + if ok then 0 else 1
      ensures |data| + refused == old(|data| + refused) + |p| && refused >= old(refused)
      ensures old(data) <= data <= old(data) + p
      ensures ok ==> refused == old(refused)
    {
      var k :| 0 <= k <= |p| + 1;
      ok := k > |p|;
      if ok {
        data := data + p;
      } else {
        data := data + p[..k];
        failures, refused := failures + 1, refused + |p| - k;
      }
    }
  }

  /** The sealed bytes of the first `n` chunks of `text`, none of them marked last. */
  ghost function Flushed(a: Aead, base: seq<Byte>, text: seq<Byte>, n: nat): seq<Byte>
    requires n <= MAX_COUNTER && Offset(n) <= |text|
  {
    if n == 0 then []
    else Flushed(a, base, text, n - 1) + a.seal(Nonce(base, n - 1, false), text[Offset(n - 1)..Offset(n)])
  }

  /** Text that arrives later changes nothing already flushed. */
  lemma {:induction false} FlushedKeeps(a: Aead, base: seq<Byte>, text: seq<Byte>, more: seq<Byte>, n: nat)
    requires n <= MAX_COUNTER && Offset(n) <= |text|
    ensures Flushed(a, base, text + more, n) == Flushed(a, base, text, n)
  {
    if n > 0 {
      FlushedKeeps(a, base, text, more, n - 1);
      assert (text + more)[Offset(n - 1)..Offset(n)] == text[Offset(n - 1)..Offset(n)];
    }
  }

  lemma FlushedNext(a: Aead, base: seq<Byte>, text: seq<Byte>, n: nat)
    requires n < MAX_COUNTER && Offset(n + 1) <= |text|
    ensures Flushed(a, base, text, n + 1) == Flushed(a, base, text, n) + a.seal(Nonce(base, n, false), text[Offset(n)..Offset(n + 1)])
  {
  }

  /** While text is still to come after them, flushed chunks are the format's. */
  lemma {:induction false} FlushedIsBody(a: Aead, base: seq<Byte>, text: seq<Byte>, n: nat)
    requires Sealable(text) && n < ChunkCount(text)
    ensures Flushed(a, base, text, n) == BodyUpTo(a, base, text, n)
  {
    if n > 0 {
      FlushedIsBody(a, base, text, n - 1);
      assert ChunkAt(text, n - 1) == text[Offset(n - 1)..Offset(n)];
    }
  }

  /** The flushed chunks and the buffered rest, marked last, are the whole body. */
  lemma LastChunkCompletes(a: Aead, base: seq<Byte>, text: seq<Byte>, n: nat)
    requires n < MAX_COUNTER && Offset(n) <= |text| <= Offset(n) + CHUNK
    requires n > 0 ==> Offset(n) < |text|
    ensures Sealable(text)
    ensures Flushed(a, base, text, n) + a.seal(Nonce(base, n, true), text[Offset(n)..]) == Body(a, base, text, 0)
  {
    assert ChunkCount(text) == n + 1;
    FlushedIsBody(a, base, text, n);
    assert ChunkAt(text, n) == text[Offset(n)..];
    BodySplits(a, base, text, n);
    assert Body(a, base, text, n + 1) == [];
    assert Body(a, base, text, n) == SealedAt(a, base, text, n);
  }

  lemma Advances(t: seq<Byte>, p: seq<Byte>, at: nat, take: nat)
    requires at + take <= |p|
    ensures t + p[..at] + p[at..at + take] == t + p[..at + take]
  {
  }

  /** Appending to a prefix, and to the whole exactly when nothing was missing. */
  lemma PutGrows(head: seq<Byte>, flushed: seq<Byte>, chunk: seq<Byte>, was: seq<Byte>, data: seq<Byte>,
                 wasRefused: nat, refused: nat)
    requires |was| + wasRefused == |head| + |flushed| && (wasRefused == 0 ==> was == head + flushed)
    requires |data| + refused == |was| + wasRefused + |chunk| && refused >= wasRefused
    requires was <= data <= was + chunk
    ensures |data| + refused == |head| + |flushed + chunk|
    ensures refused == 0 ==> data == head + (flushed + chunk)
  {
    if refused == 0 {
      assert data == was + chunk;
      assert (head + flushed) + chunk == head + (flushed + chunk);
    }
  }

  /** Chunks sealed one after another, each under the nonce of its place, in one mark or the other. */
  ghost predicate InPlaces(base: seq<Byte>, sealed: seq<Entry>) {
    |sealed| <= COUNTERS
    && forall k :: 0 <= k < |sealed| ==> sealed[k].nonce == Nonce(base, k, false) || sealed[k].nonce == Nonce(base, k, true)
  }

  /** No two of them share a nonce. */
  lemma NoNonceTwice(base: seq<Byte>, sealed: seq<Entry>, i: nat, j: nat)
    requires InPlaces(base, sealed) && i < j < |sealed|
    ensures sealed[i].nonce != sealed[j].nonce
  {
    if sealed[i].nonce == sealed[j].nonce {
      var a, b := sealed[i].nonce == Nonce(base, i, true), sealed[j].nonce == Nonce(base, j, true);
      NonceInjective(base, i, a, j, b);
    }
  }

  /** The chunks before the buffer, as they were sealed. */
  ghost predicate SealedSoFar(base: seq<Byte>, text: seq<Byte>, sealed: seq<Entry>)
    requires |sealed| <= MAX_COUNTER && Offset(|sealed|) <= |text|
  {
    forall k :: 0 <= k < |sealed| ==> sealed[k] == Entry(Nonce(base, k, false), text[Offset(k)..Offset(k + 1)])
  }

  lemma SealedNext(base: seq<Byte>, text: seq<Byte>, sealed: seq<Entry>)
    requires |sealed| < MAX_COUNTER && Offset(|sealed| + 1) <= |text| && SealedSoFar(base, text, sealed)
    ensures SealedSoFar(base, text, sealed + [Entry(Nonce(base, |sealed|, false), text[Offset(|sealed|)..Offset(|sealed| + 1)])])
  {
  }

  lemma NextInPlace(base: seq<Byte>, sealed: seq<Entry>, last: bool, plain: seq<Byte>)
    requires InPlaces(base, sealed) && |sealed| < MAX_COUNTER
    ensures InPlaces(base, sealed + [Entry(Nonce(base, |sealed|, last), plain)])
  {
  }

  lemma SealedKeeps(base: seq<Byte>, text: seq<Byte>, more: seq<Byte>, sealed: seq<Entry>)
    requires |sealed| <= MAX_COUNTER && Offset(|sealed|) <= |text| && SealedSoFar(base, text, sealed)
    ensures SealedSoFar(base, text + more, sealed)
  {
    forall k | 0 <= k < |sealed| ensures (text + more)[Offset(k)..Offset(k + 1)] == text[Offset(k)..Offset(k + 1)] {
    }
  }

  /** With the buffered rest, marked last, they are what the format says a session seals. */
  lemma SealedIsLog(base: seq<Byte>, text: seq<Byte>, sealed: seq<Entry>)
    requires |sealed| < MAX_COUNTER && Offset(|sealed|) <= |text| <= Offset(|sealed|) + CHUNK
    requires SealedSoFar(base, text, sealed) && (|sealed| > 0 ==> Offset(|sealed|) < |text|)
    ensures Sealable(text)
    ensures sealed + [Entry(Nonce(base, |sealed|, true), text[Offset(|sealed|)..])] == Log(base, text)
  {
    var n := |sealed|;
    assert ChunkCount(text) == n + 1;
    forall k: nat | k < n ensures sealed[k] == EntryAt(base, text, k) {
      assert ChunkAt(text, k) == text[Offset(k)..Offset(k + 1)];
    }
    assert ChunkAt(text, n) == text[Offset(n)..];
  }

  class Sealer {
    const w: Sink
    const aead: Aead
    const base: seq<Byte>
    var counter: nat
    var buf: seq<Byte>
    var closed: bool

    ghost const head: seq<Byte> // what the sink held before the first chunk
    ghost var text: seq<Byte>   // everything accepted
    ghost var sealed: seq<Entry> // every chunk put through the AEAD

    /** The buffer is the text's end, and the sink was given the chunks before it: it holds them if
        it turned no byte away. */
    ghost predicate Open()
      reads this, w
    {
      && counter <= MAX_COUNTER && |buf| <= CHUNK
      && Offset(counter) + |buf| == |text| && buf == text[Offset(counter)..]
      && |sealed| == counter && SealedSoFar(base, text, sealed)
      && var flushed := Flushed(aead, base, text, counter);
         && |w.data| + w.refused == |head| + |flushed|
         && (w.refused == 0 ==> w.data == head + flushed)
    }

    /** No chunk was sealed that the text's end could still be in: false only right after a failed write. */
    ghost predicate Settled()
      reads this
    {
      counter > 0 ==> buf != []
    }

    ghost predicate Valid()
      reads this, w
    {
      && InPlaces(base, sealed)
      && (!closed ==> Open() && (w.failures == 0 ==> Settled() && w.refused == 0))
    }

    constructor (w: Sink, aead: Aead, base: seq<Byte>)
      requires w.failures == 0 && w.refused == 0
      ensures Valid() && !closed && text == [] && counter == 0 && sealed == []
      ensures this.w == w && this.aead == aead && this.base == base && head == w.data
    {
      this.w, this.aead, this.base := w, aead, base;
      counter, buf, closed := 0, [], false;
      head, text, sealed := w.data, [], [];
      new;
      assert w.data == head + [];
    }

    /** Seal the buffer as one chunk. The counter moves and the buffer empties even if the sink fails. */
    method Flush(last: bool) returns (ok: bool)
      requires counter <= MAX_COUNTER
      modifies this`counter, this`buf, this`sealed, w
      ensures old(counter) == MAX_COUNTER ==>
                !ok && counter == old(counter) && buf == old(buf) && sealed == old(sealed)
                && w.data == old(w.data) && w.failures == old(w.failures) && w.refused == old(w.refused)
      ensures old(counter) < MAX_COUNTER ==>
                && counter == old(counter) + 1 && buf == []
                && sealed == old(sealed) + [Entry(Nonce(base, old(counter), last), old(buf))]
                && w.failures == old(w.failures) + (if ok then 0 else 1) && (ok ==> w.refused == old(w.refused))
                && var out := aead.seal(Nonce(base, old(counter), last), old(buf));
                   && old(w.data) <= w.data <= old(w.data) + out && w.refused >= old(w.refused)
                   && |w.data| + w.refused == old(|w.data| + w.refused) + |out|
    {
      if counter == MAX_COUNTER {
        return false;
      }
      var out := aead.seal(Nonce(base, counter, last), buf);
      sealed := sealed + [Entry(Nonce(base, counter, last), buf)];
      counter := counter + 1;
      buf := [];
      ok := w.Put(out);
    }

    /** Buffer bytes that fit in the current chunk. */
    method Append(p: seq<Byte>)
      requires Open() && InPlaces(base, sealed) && |buf| + |p| <= CHUNK && !closed && p != [] && (w.failures == 0 ==> w.refused == 0)
      modifies this`buf, this`text
      ensures Valid() && buf == old(buf) + p && text == old(text) + p
    {
      FlushedKeeps(aead, base, text, p, counter);
      SealedKeeps(base, text, p, sealed);
      buf := buf + p;
      text := text + p;
    }

    /** Make room: a full chunk is sealed, unmarked, only once more is known to follow. */
    method MakeRoom() returns (ok: bool)
      requires Valid() && !closed
      modifies this`counter, this`buf, this`sealed, w
      ensures Open() && InPlaces(base, sealed) && old(sealed) <= sealed && (w.failures == 0 ==> w.refused == 0) && (ok ==> |buf| < CHUNK)
      ensures w.failures == old(w.failures) || (!ok && w.failures == old(w.failures) + 1)
      ensures !ok && w.failures == old(w.failures) ==>
                |text| == Offset(MAX_COUNTER) + CHUNK && buf == old(buf) && counter == old(counter)
    {
      if |buf| < CHUNK {
        return true;
      }
      hide SealedSoFar, InPlaces, Nonce, Flushed;
      ghost var c, full := counter, buf;
      ghost var was, wasRefused := w.data, w.refused;
      ok := Flush(false);
      if c < MAX_COUNTER {
        assert full == text[Offset(c)..Offset(c + 1)];
        SealedNext(base, text, old(sealed));
        NextInPlace(base, old(sealed), false, full);
        FlushedNext(aead, base, text, c);
        PutGrows(head, Flushed(aead, base, text, c), aead.seal(Nonce(base, c, false), full),
                 was, w.data, wasRefused, w.refused);
      }
    }

    /** Accept a piece of the text, or as much of it as the counter leaves room for. */
    method Write(p: seq<Byte>) returns (n: nat, ok: bool)
      requires Valid()
      modifies this`counter, this`buf, this`text, this`sealed, w
      ensures Valid() && old(sealed) <= sealed && n <= |p| && (ok ==> n == |p|) && w.failures >= old(w.failures)
      ensures old(closed) ==> !ok && n == 0 && text == old(text)
                              && w.data == old(w.data) && w.failures == old(w.failures) && w.refused == old(w.refused)
      ensures !old(closed) ==> text == old(text) + p[..n]
      ensures !old(closed) ==>
                (ok <==> w.failures == old(w.failures) && |old(text)| + |p| <= Offset(MAX_COUNTER) + CHUNK)
    {
      if closed {
        return 0, false;
      }
      hide SealedSoFar, InPlaces, Flushed;
      var at: nat := 0; // how much of p is buffered
      while at < |p|
        invariant at <= |p| && !closed && Valid() && w.failures == old(w.failures)
        invariant text == old(text) + p[..at] && old(sealed) <= sealed
      {
        ok := MakeRoom();
        if !ok {
          return at, false;
        }
        var take := Min(CHUNK - |buf|, |p| - at);
        Advances(old(text), p, at, take);
        Append(p[at..at + take]);
        at := at + take;
      }
      assert p[..at] == p;
      return at, true;
    }

    /** Seal what is buffered as the last chunk. A second call does nothing and succeeds. What the sink
        then holds is the sealed text exactly when it turned no byte away, whatever it answered before; only
        right after a write that failed is the last chunk one more than the text has, and empty. */
    method Close() returns (ok: bool)
      requires Valid()
      modifies this`counter, this`buf, this`closed, this`sealed, w
      ensures Valid() && closed && old(sealed) <= sealed
      ensures old(closed) ==> sealed == old(sealed)
      ensures !old(closed) && old(Settled()) && Sealable(text) ==> sealed == Log(base, text)
      ensures old(closed) ==>
                ok && w.data == old(w.data) && w.failures == old(w.failures) && w.refused == old(w.refused)
      ensures !old(closed) ==> w.failures == old(w.failures) || (!ok && w.failures == old(w.failures) + 1)
      ensures !old(closed) ==> (ok <==> old(counter) < MAX_COUNTER && w.failures == old(w.failures))
      ensures !old(closed) && old(counter) < MAX_COUNTER && w.refused == 0 ==>
                w.data == head + (Flushed(aead, base, text, old(counter)) + aead.seal(Nonce(base, old(counter), true), old(buf)))
      ensures !old(closed) && old(Settled()) ==>
                && (ok <==> Sealable(text) && w.failures == old(w.failures))
                && (Sealable(text) ==> (w.data == head + Body(aead, base, text, 0) <==> w.refused == 0))
      ensures ok && w.failures == 0 ==> old(closed) || w.data == head + Body(aead, base, text, 0)
    {
      if closed {
        return true;
      }
      hide SealedSoFar, InPlaces, Nonce, Flushed, Body;
      ghost var c, kept := counter, buf;
      ghost var was, wasRefused := w.data, w.refused;
      closed := true;
      ok := Flush(true);
      if c < MAX_COUNTER {
        PutGrows(head, Flushed(aead, base, text, c), aead.seal(Nonce(base, c, true), kept),
                 was, w.data, wasRefused, w.refused);
        NextInPlace(base, old(sealed), true, kept);
        if old(Settled()) {
          LastChunkCompletes(aead, base, text, c);
          SealedIsLog(base, text, old(sealed));
        }
      }
    }
  }

  datatype Call = WriteCall(p: seq<Byte>) | CloseCall

  /** Any calls of a writer, in any order, whatever the sink takes or fails: no two chunks it seals have one nonce. */
  method AnySession(w: Sink, aead: Aead, base: seq<Byte>, calls: seq<Call>) returns (ghost sealed: seq<Entry>)
    requires w.failures == 0 && w.refused == 0
    modifies w
    ensures forall i, j :: 0 <= i < j < |sealed| ==> sealed[i].nonce != sealed[j].nonce
  {
    var s := new Sealer(w, aead, base);
    for k := 0 to |calls|
      invariant s.Valid() && s.w == w && fresh(s)
    {
      match calls[k] {
        case WriteCall(p) => var _, _ := s.Write(p);
        case CloseCall => var _ := s.Close();
      }
    }
    sealed := s.sealed;
    forall i, j | 0 <= i < j < |sealed| ensures sealed[i].nonce != sealed[j].nonce {
      NoNonceTwice(s.base, sealed, i, j);
    }
  }

  function Concat(pieces: seq<seq<Byte>>): seq<Byte> {
    if pieces == [] then [] else Concat(pieces[..|pieces| - 1]) + pieces[|pieces| - 1]
  }

  /** Seal an archive written in any pieces. It succeeds exactly when the sink fails no write and the text
      is not too long, and the sink then holds the one file the format has for the pieces' concatenation. */
  method SealPieces(w: Sink, aead: Aead, salt: seq<Byte>, base: seq<Byte>, pieces: seq<seq<Byte>>)
    returns (ok: bool)
    requires w.data == [] && w.failures == 0 && w.refused == 0
    modifies w
    ensures ok <==> w.failures == 0 && Sealable(Concat(pieces))
    ensures ok ==> w.data == File(aead, salt, base, Concat(pieces))
  {
    ok := w.Put(MAGIC + salt + base);
    if !ok {
      return;
    }
    var s := new Sealer(w, aead, base);
    for i := 0 to |pieces|
      invariant s.Valid() && s.w == w && s.aead == aead && s.base == base && !s.closed && w.failures == 0
      invariant fresh(s) && s.text == Concat(pieces[..i]) && s.head == MAGIC + salt + base
    {
      var n;
      n, ok := s.Write(pieces[i]);
      assert pieces[..i + 1][..i] == pieces[..i];
      if !ok {
        ConcatGrows(pieces, i + 1);
        return;
      }
      assert pieces[i][..n] == pieces[i];
    }
    assert pieces[..|pieces|] == pieces;
    ok := s.Close();
  }

  lemma {:induction false} ConcatGrows(pieces: seq<seq<Byte>>, i: nat)
    requires i <= |pieces|
    ensures |Concat(pieces[..i])| <= |Concat(pieces)|
    decreases |pieces| - i
  {
    if i < |pieces| {
      ConcatGrows(pieces, i + 1);
      assert pieces[..i + 1][..i] == pieces[..i];
    } else {
      assert pieces[..i] == pieces;
    }
  }
}
