/**
  A sealed archive end to end: written in any pieces, changed on the way or
  not, and read back through a buffer of any size.
 */
module Archive {
  import opened Prelude
  import opened SealFormat
  import opened Opening
  import opened Sealing

  const HEAD := |MAGIC| + SALT_SIZE + NONCE_BASE

  lemma HeaderOnly(salt: seq<Byte>, base: seq<Byte>, file: seq<Byte>, body: seq<Byte>)
    requires |salt| == SALT_SIZE && |base| == NONCE_BASE && |file| >= HEAD
    requires file[|MAGIC|..|MAGIC| + SALT_SIZE] == salt && file[|MAGIC| + SALT_SIZE..HEAD] == base
    ensures file == MAGIC + salt + base + body <==> file[..|MAGIC|] == MAGIC && file[HEAD..] == body
  {
    HeaderParses(salt, base, body);
    assert file == file[..|MAGIC|] + file[|MAGIC|..|MAGIC| + SALT_SIZE] + file[|MAGIC| + SALT_SIZE..HEAD] + file[HEAD..];
  }

  /** Open a file and drain it. Under the key a text was sealed with, whatever the rest of the file is:
      only a prefix of that text comes out, and it comes out whole, with no error, exactly when the file
      is the sealed one and a password was given. */
  method ReadBack(keys: (string, seq<Byte>) -> Aead, password: string, file: seq<Byte>, size: nat,
                  ghost salt: seq<Byte>, ghost base: seq<Byte>, ghost text: seq<Byte>)
    returns (out: seq<Byte>, ok: bool)
    requires size > 0 && |salt| == SALT_SIZE && |base| == NONCE_BASE
    requires Sealable(text) && Ideal(keys(password, salt), Log(base, text))
    requires |file| >= HEAD ==> file[|MAGIC|..|MAGIC| + SALT_SIZE] == salt && file[|MAGIC| + SALT_SIZE..HEAD] == base
    ensures out <= text
    ensures ok <==> password != "" && file == File(keys(password, salt), salt, base, text)
    ensures ok ==> out == text
  {
    if |file| < HEAD {
      return [], false;
    }
    HeaderOnly(salt, base, file, Body(keys(password, salt), base, text, 0));
    if file[..|MAGIC|] != MAGIC || password == "" {
      return [], false;
    }
    var aead := keys(password, file[|MAGIC|..|MAGIC| + SALT_SIZE]);
    out, ok := ReadAll(aead, file[|MAGIC| + SALT_SIZE..HEAD], file[HEAD..], size, text);
  }

  /** However an archive is cut into writes, and whatever the size of the buffer it is read through: if
      sealing it succeeds, opening the file under the same password, not an empty one, gives it back. */
  method SealAndReadBack(keys: (string, seq<Byte>) -> Aead, password: string, salt: seq<Byte>, base: seq<Byte>,
                         pieces: seq<seq<Byte>>, size: nat)
    returns (sealed: bool, out: seq<Byte>, ok: bool)
    requires size > 0 && |salt| == SALT_SIZE && |base| == NONCE_BASE
    requires Sealable(Concat(pieces)) ==> Ideal(keys(password, salt), Log(base, Concat(pieces)))
    ensures sealed ==> (ok <==> password != "") && (ok ==> out == Concat(pieces))
  {
    var w := new Sink();
    out, ok := [], false;
    sealed := SealPieces(w, keys(password, salt), salt, base, pieces);
    if sealed {
      HeaderParses(salt, base, Body(keys(password, salt), base, Concat(pieces), 0));
      out, ok := ReadBack(keys, password, w.data, size, salt, base, Concat(pieces));
    }
  }
}
