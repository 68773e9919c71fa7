/** Sealed blobs: nonce, tag and ciphertext packed, encoded and prefixed; the cipher is a parameter. */
module Secrets {
  import opened Bytes
  import opened Options
  import Base64

  const BLOB_PREFIX := "MGCRYPT:v1:"
  const IV: nat := 12
  const TAG: nat := 16

  datatype Sealed = Sealed(tag: seq<byte>, text: seq<byte>)

  /** An authenticated cipher under the machine's key. */
  datatype Cipher = Cipher(seal: (seq<byte>, seq<byte>) -> Sealed,
                           open: (seq<byte>, Sealed) -> Option<seq<byte>>)

  /** It opens what it seals, keeps lengths and makes tags of sixteen bytes. */
  ghost predicate Opens(c: Cipher) {
    forall iv: seq<byte>, p: seq<byte> | |iv| == IV ::
      && |c.seal(iv, p).tag| == TAG && |c.seal(iv, p).text| == |p|
      && c.open(iv, c.seal(iv, p)) == Some(p)
  }

  predicate IsEncrypted(value: string) {
    |value| > |BLOB_PREFIX| && BLOB_PREFIX <= value
  }

  /** `iv` is what the random source gave, nothing when it failed. */
  function Encrypt(c: Cipher, iv: Option<seq<byte>>, plain: seq<byte>): string {
    if plain == [] || iv.None? then ""
    else
      var s := c.seal(iv.value, plain);
      BLOB_PREFIX + Base64.Encode(iv.value + s.tag + s.text)
  }

  function Decrypt(c: Cipher, blob: string): seq<byte> {
    if !IsEncrypted(blob) then []
    else
      var d := Base64.Decode(blob[|BLOB_PREFIX|..]);
      if |d| < 29 then []
      else
        var r := c.open(d[..IV], Sealed(d[IV..IV + TAG], d[IV + TAG..]));
        if r.None? then [] else r.value
  }

  /** Decrypting what was encrypted, for every non-empty text and every nonce. */
  lemma DecryptEncrypt(c: Cipher, iv: seq<byte>, plain: seq<byte>)
    requires Opens(c) && |iv| == IV && plain != []
    ensures Decrypt(c, Encrypt(c, Some(iv), plain)) == plain
    ensures IsEncrypted(Encrypt(c, Some(iv), plain))
  {
    hide Base64.Decode, Base64.Encode;
    var s := c.seal(iv, plain);
    var packed := iv + s.tag + s.text;
    var blob := Encrypt(c, Some(iv), plain);
    Base64.DecodeEncode(packed);
    Base64.EncodeLength(packed);
    assert blob[|BLOB_PREFIX|..] == Base64.Encode(packed);
    assert packed[..IV] == iv && packed[IV..IV + TAG] == s.tag && packed[IV + TAG..] == s.text;
  }

  /** The blob: eleven characters of prefix, then the encoding of twelve nonce bytes, sixteen tag bytes and the text. */
  lemma BlobLayout(c: Cipher, iv: seq<byte>, plain: seq<byte>)
    requires Opens(c) && |iv| == IV && plain != []
    ensures var blob := Encrypt(c, Some(iv), plain);
            && |blob| >= 11 && blob[..11] == "MGCRYPT:v1:"
            && var d := Base64.Decode(blob[11..]);
               && |d| == 28 + |plain| && d[..12] == iv
               && Sealed(d[12..28], d[28..]) == c.seal(iv, plain)
  {
    hide Base64.Decode, Base64.Encode;
    var s := c.seal(iv, plain);
    var packed := iv + s.tag + s.text;
    Base64.DecodeEncode(packed);
    assert Encrypt(c, Some(iv), plain)[11..] == Base64.Encode(packed);
    assert packed[..12] == iv && packed[12..28] == s.tag && packed[28..] == s.text;
  }

  /** Nothing is encrypted without a text or a nonce, and nothing but a blob is decrypted. */
  lemma RefusedIff(c: Cipher, iv: Option<seq<byte>>, plain: seq<byte>, blob: string)
    ensures Encrypt(c, iv, plain) == "" <==> plain == [] || iv.None?
    ensures !("MGCRYPT:v1:" <= blob) || blob == "MGCRYPT:v1:" ==> Decrypt(c, blob) == []
  {
    hide Base64.Decode, Base64.Encode;
  }

  /** The blob's length depends on the text's length alone. */
  lemma BlobLength(c: Cipher, iv: seq<byte>, plain: seq<byte>)
    requires Opens(c) && |iv| == IV && plain != []
    ensures |Encrypt(c, Some(iv), plain)| == 11 + (|plain| + 30) / 3 * 4
  {
    hide Base64.Encode;
    var s := c.seal(iv, plain);
    Base64.EncodeLength(iv + s.tag + s.text);
  }

  /** It opens only what it sealed. */
  ghost predicate Authentic(c: Cipher) {
    forall iv: seq<byte>, s: Sealed | |iv| == IV && c.open(iv, s).Some? :: s == c.seal(iv, c.open(iv, s).value)
  }

  /** The blob with its text written as the encoder writes it: no other characters, padding at the end. */
  function Canonical(blob: string): string
    requires IsEncrypted(blob)
  {
    BLOB_PREFIX + Base64.Encode(Base64.Decode(blob[|BLOB_PREFIX|..]))
  }

  ghost predicate Encrypts(c: Cipher, blob: string, plain: seq<byte>) {
    exists iv: seq<byte> | |iv| == IV :: blob == Encrypt(c, Some(iv), plain)
  }

  /**
   For an authentic cipher: any text at all decrypts to `plain` exactly when it carries the prefix and
   is, up to the way its digits are written, an encryption of `plain`.
   */
  lemma DecryptIff(c: Cipher, blob: string, plain: seq<byte>)
    requires Opens(c) && Authentic(c) && plain != []
    ensures Decrypt(c, blob) == plain <==> IsEncrypted(blob) && Encrypts(c, Canonical(blob), plain)
  {
    hide Base64.Decode, Base64.Encode;
    if Decrypt(c, blob) == plain {
      DecryptedWasEncrypted(c, blob, plain);
    }
    if IsEncrypted(blob) && Encrypts(c, Canonical(blob), plain) {
      var iv: seq<byte> :| |iv| == IV && Canonical(blob) == Encrypt(c, Some(iv), plain);
      DecryptEncrypt(c, iv, plain);
      CanonicalDecrypts(c, blob);
    }
  }

  lemma DecryptedWasEncrypted(c: Cipher, blob: string, plain: seq<byte>)
    requires Authentic(c) && plain != [] && Decrypt(c, blob) == plain
    ensures IsEncrypted(blob) && Encrypts(c, Canonical(blob), plain)
  {
    hide Base64.Decode, Base64.Encode;
    var d := Base64.Decode(blob[|BLOB_PREFIX|..]);
    var (iv, s) := (d[..IV], Sealed(d[IV..IV + TAG], d[IV + TAG..]));
    assert s == c.seal(iv, plain);
    assert iv + s.tag + s.text == d;
    assert Canonical(blob) == Encrypt(c, Some(iv), plain);
  }

  /** Writing the digits in the canonical way changes nothing for the reader. */
  lemma CanonicalDecrypts(c: Cipher, blob: string)
    requires IsEncrypted(blob)
    ensures Decrypt(c, Canonical(blob)) == Decrypt(c, blob)
  {
    hide Base64.Decode, Base64.Encode;
    var d := Base64.Decode(blob[|BLOB_PREFIX|..]);
    assert Canonical(blob)[|BLOB_PREFIX|..] == Base64.Encode(d);
    Base64.DecodeEncode(d);
    Base64.EncodeLength(d);
  }

  /** Characters outside the alphabet may stand anywhere behind the prefix. */
  lemma DecryptSkips(c: Cipher, a: string, junk: char, b: string)
    requires !Base64.Alpha(junk) && junk != '='
    ensures Decrypt(c, BLOB_PREFIX + a + [junk] + b) == Decrypt(c, BLOB_PREFIX + a + b)
  {
    hide Base64.Decode;
    assert (BLOB_PREFIX + a + [junk] + b)[|BLOB_PREFIX|..] == a + [junk] + b;
    assert (BLOB_PREFIX + a + b)[|BLOB_PREFIX|..] == a + b;
    Base64.DecodeSkips(a, junk, b);
    Base64.DecodeNothing();
  }
}
