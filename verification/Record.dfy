/** The encrypted record layer: nonces, headers, frames, sealing and opening (src/protocol/record.cpp). */
module Record {
  import opened Core
  import opened Codec
  import opened Hash
  import opened Transcripts
  import Session
  import Aead

  const RECORD_V1: Bytes := Ascii("QuantLib Record v1")
  const VERSION: u8 := 1
  const HEADER_BYTES: nat := 19
  const MAX_SEQUENCE: u64 := 0xffff_ffff_ffff_fffe

  // `ContentType` values are whatever byte the header carries: the decoder does not restrict them.
  const DATA: u8 := 1
  const HANDSHAKE: u8 := 2
  const ALERT: u8 := 3
  const KEY_UPDATE: u8 := 4
  const CLOSE_NOTIFY: u8 := 0

  datatype Header = Header(version: u8, contentType: u8, role: Session.Role, sequence: u64, ciphertextLen: u32, tagLen: u32)

  datatype Frame = Frame(header: Header, nonce: Bytes, ciphertext: Bytes, tag: Bytes)

  function RoleByte(role: Session.Role): u8 {
    if role.Client? then 1 else 2
  }

  function ValidateHeader(h: Header): Result<Unit> {
    if h.version != VERSION then Err(InvalidFormat)
    else if h.sequence > MAX_SEQUENCE then Err(InvalidArgument)
    else if h.tagLen != 16 then Err(InvalidArgument)
    else Ok(Unit)
  }

  // ---- Nonces ----

  function SequenceNonce(base: Bytes, sequence: u64): (r: Result<Bytes>)
    ensures r.Ok? ==> |r.value| == Session.NONCE_BYTES
  {
    if |base| != Session.NONCE_BYTES || sequence > MAX_SEQUENCE then Err(InvalidArgument)
    else Ok(base[..4] + XorAll(base[4..], Be(sequence, 8)))
  }

  /** One base nonce gives every sequence a nonce of its own. */
  lemma SequenceNonceInjective(base: Bytes, s: u64, t: u64)
    requires SequenceNonce(base, s).Ok? && SequenceNonce(base, s) == SequenceNonce(base, t)
    ensures s == t
  {
    hide Xor;
    var x, y := Be(s, 8), Be(t, 8);
    var m, n := SequenceNonce(base, s).value, SequenceNonce(base, t).value;
    forall i | 0 <= i < 8
      ensures x[i] == y[i]
    {
      assert m[4 + i] == Xor(base[4 + i], x[i]) && n[4 + i] == Xor(base[4 + i], y[i]);
      XorCommutes(base[4 + i], x[i]);
      XorCommutes(base[4 + i], y[i]);
      XorCancels(x[i], base[4 + i]);
      XorCancels(y[i], base[4 + i]);
    }
    Widths();
    FromBeOfBe(s, 8);
    FromBeOfBe(t, 8);
    assert x == y;
  }

  /** And different base nonces give one sequence different nonces. */
  lemma SequenceNonceKeepsBase(b: Bytes, c: Bytes, s: u64)
    requires SequenceNonce(b, s).Ok? && SequenceNonce(b, s) == SequenceNonce(c, s)
    ensures b == c
  {
    hide Xor, Be;
    var x := Be(s, 8);
    var m, n := SequenceNonce(b, s).value, SequenceNonce(c, s).value;
    forall i | 0 <= i < 12
      ensures b[i] == c[i]
    {
      if i < 4 {
        assert m[i] == b[i] && n[i] == c[i];
      } else {
        assert m[i] == Xor(b[i], x[i - 4]) && n[i] == Xor(c[i], x[i - 4]);
        XorCancels(b[i], x[i - 4]);
        XorCancels(c[i], x[i - 4]);
      }
    }
  }

  lemma {:induction false} BeByte(n: nat, w: nat, i: nat)
    requires i < w
    ensures Be(n, w)[w - 1 - i] == n / Pow256(i) % 256
  {
    if i > 0 {
      BeByte(n / 256, w - 1, i - 1);
      DivDiv(n, Pow256(i - 1));
    }
  }

  /** `sequence_nonce`: the low eight bytes of the base, mixed in place from the end. */
  method MakeNonce(base: Bytes, sequence: u64) returns (r: Result<Bytes>)
    ensures r == SequenceNonce(base, sequence)
  {
    hide Xor, Be;
    if |base| != Session.NONCE_BYTES || sequence > MAX_SEQUENCE {
      return Err(InvalidArgument);
    }
    var nonce := new u8[12](i requires 0 <= i < 12 => base[i]);
    for i := 0 to 8
      invariant forall j | 0 <= j < 12 - i :: nonce[j] == base[j]
      invariant forall j | 12 - i <= j < 12 :: nonce[j] == Xor(base[j], Be(sequence, 8)[j - 4])
    {
      BeByte(sequence, 8, i);
      nonce[11 - i] := Xor(nonce[11 - i], sequence / Pow256(i) % 256);
    }
    assert nonce[..] == base[..4] + XorAll(base[4..], Be(sequence, 8));
    r := Ok(nonce[..]);
  }

  // ---- Headers ----

  function HeaderBytes(h: Header): (b: Bytes)
    ensures |b| == HEADER_BYTES
  {
    [h.version, h.contentType, RoleByte(h.role)] + Be(h.sequence, 8) + Be(h.ciphertextLen, 4) + Be(h.tagLen, 4)
  }

  function EncodeHeader(h: Header): Result<Bytes> {
    var _ :- ValidateHeader(h);
    Ok(HeaderBytes(h))
  }

  function ReadBe(b: Bytes): (n: nat)
    ensures n < Pow256(|b|)
  {
    BeOfFromBe(b);
    FromBe(b)
  }

  function DecodeHeader(b: Bytes): Result<Header> {
    if |b| != HEADER_BYTES then Err(InvalidFormat)
    else if b[2] != 1 && b[2] != 2 then Err(InvalidFormat)
    else
      Widths();
      var h := Header(b[0], b[1], if b[2] == 2 then Session.Server else Session.Client,
                      ReadBe(b[3..11]), ReadBe(b[11..15]), ReadBe(b[15..19]));
      var _ :- ValidateHeader(h);
      Ok(h)
  }

  lemma DecodeOfEncodeHeader(h: Header)
    requires ValidateHeader(h).Ok?
    ensures DecodeHeader(HeaderBytes(h)) == Ok(h)
  {
    Widths();
    var b := HeaderBytes(h);
    assert b[3..11] == Be(h.sequence, 8) && b[11..15] == Be(h.ciphertextLen, 4) && b[15..19] == Be(h.tagLen, 4);
    FromBeOfBe(h.sequence, 8);
    FromBeOfBe(h.ciphertextLen, 4);
    FromBeOfBe(h.tagLen, 4);
  }

  lemma EncodeOfDecodeHeader(b: Bytes)
    requires DecodeHeader(b).Ok?
    ensures ValidateHeader(DecodeHeader(b).value).Ok? && HeaderBytes(DecodeHeader(b).value) == b
  {
    BeOfFromBe(b[3..11]);
    BeOfFromBe(b[11..15]);
    BeOfFromBe(b[15..19]);
    assert b == [b[0], b[1], b[2]] + b[3..11] + b[11..15] + b[15..19];
  }

  // ---- Frames ----

  function EncodeFrame(f: Frame): Result<Bytes> {
    var header :- EncodeHeader(f.header);
    if |f.nonce| != Session.NONCE_BYTES then Err(InvalidFormat)
    else if |f.ciphertext| != f.header.ciphertextLen then Err(InvalidFormat)
    else if |f.tag| != f.header.tagLen then Err(InvalidFormat)
    else Ok(header + f.nonce + f.ciphertext + f.tag)
  }

  function DecodeFrame(b: Bytes): Result<Frame> {
    if |b| < HEADER_BYTES + Session.NONCE_BYTES + 16 then Err(InvalidFormat) else
    var h :- DecodeHeader(b[..HEADER_BYTES]);
    if |b| != HEADER_BYTES + Session.NONCE_BYTES + h.ciphertextLen + h.tagLen then Err(InvalidFormat)
    else Ok(Frame(h, b[19..31], b[31..31 + h.ciphertextLen], b[31 + h.ciphertextLen..]))
  }

  /** Reading back a written frame returns it. */
  lemma DecodeOfEncodeFrame(f: Frame)
    requires EncodeFrame(f).Ok?
    ensures DecodeFrame(EncodeFrame(f).value) == Ok(f)
  {
    DecodeOfEncodeHeader(f.header);
    hide HeaderBytes, DecodeHeader;
    var header := HeaderBytes(f.header);
    var b := EncodeFrame(f).value;
    assert b == header + f.nonce + f.ciphertext + f.tag;
    assert b[..19] == header && b[19..31] == f.nonce;
    assert b[31..31 + |f.ciphertext|] == f.ciphertext && b[31 + |f.ciphertext|..] == f.tag;
  }

  /** The accepted byte strings are exactly the written frames. */
  lemma EncodeOfDecodeFrame(b: Bytes)
    requires DecodeFrame(b).Ok?
    ensures EncodeFrame(DecodeFrame(b).value) == Ok(b)
  {
    EncodeOfDecodeHeader(b[..HEADER_BYTES]);
    hide HeaderBytes, DecodeHeader;
    var f := DecodeFrame(b).value;
    assert b == b[..19] + b[19..31] + b[31..31 + f.header.ciphertextLen] + b[31 + f.header.ciphertextLen..];
  }

  /** `encode_frame`, pushing piece after piece. */
  method WriteFrame(f: Frame) returns (r: Result<Bytes>)
    ensures r == EncodeFrame(f)
  {
    var valid := ValidateHeader(f.header);
    if valid.Err? {
      return Err(valid.error);
    }
    if |f.nonce| != Session.NONCE_BYTES || |f.ciphertext| != f.header.ciphertextLen || |f.tag| != f.header.tagLen {
      return Err(InvalidFormat);
    }
    hide Be;
    var out: Bytes := [f.header.version];
    out := out + [f.header.contentType];
    out := out + [RoleByte(f.header.role)];
    out := PutWord(out, f.header.sequence, 8);
    out := PutWord(out, f.header.ciphertextLen, 4);
    out := PutWord(out, f.header.tagLen, 4);
    assert out == HeaderBytes(f.header);
    out := out + f.nonce;
    out := out + f.ciphertext;
    out := out + f.tag;
    r := Ok(out);
  }

  /** `decode_frame`, with its offset. */
  method ReadFrame(b: Bytes) returns (r: Result<Frame>)
    ensures r == DecodeFrame(b)
  {
    hide DecodeHeader;
    if |b| < HEADER_BYTES + Session.NONCE_BYTES + 16 {
      return Err(InvalidFormat);
    }
    var header := DecodeHeader(b[..HEADER_BYTES]);
    if header.Err? {
      return Err(header.error);
    }
    var h := header.value;
    if |b| != HEADER_BYTES + Session.NONCE_BYTES + h.ciphertextLen + h.tagLen {
      return Err(InvalidFormat);
    }
    var off := HEADER_BYTES;
    var nonce := b[off..off + Session.NONCE_BYTES];
    off := off + Session.NONCE_BYTES;
    var ciphertext := b[off..off + h.ciphertextLen];
    off := off + h.ciphertextLen;
    assert b[off..off + h.tagLen] == b[off..];
    r := Ok(Frame(h, nonce, ciphertext, b[off..off + h.tagLen]));
  }

  // ---- Sealing and opening ----

  function AadFields(headerBytes: Bytes, associatedData: Bytes): seq<Field> {
    [Field(Ascii("header"), headerBytes), Field(Ascii("aad"), associatedData)]
  }

  /** `aad_for`: the digest that binds the header and the caller's associated data to the ciphertext. */
  function AadFor(h: Header, associatedData: Bytes): Result<Bytes> {
    var encoded :- EncodeHeader(h);
    Digest(RECORD_V1, AadFields(encoded, associatedData))
  }

  function Seal(aead: Aead.Provider, alg: Aead.Algorithm, m: Session.KeyMaterial, role: Session.Role, contentType: u8,
                sequence: u64, plaintext: Bytes, associatedData: Bytes): Result<Frame>
  {
    if |plaintext| > 0xffff_ffff then Err(InvalidArgument) else
    var header := Header(VERSION, contentType, role, sequence, |plaintext|, 16);
    var aad :- AadFor(header, associatedData);
    var nonce :- SequenceNonce(m.WriteNonce(role), sequence);
    var box :- aead.Encrypt(alg, m.WriteKey(role), nonce, plaintext, aad);
    Ok(Frame(header.(ciphertextLen := |box.data| % TWO_TO_THE_32), box.nonce, box.data, box.tag))
  }

  function Open(aead: Aead.Provider, alg: Aead.Algorithm, m: Session.KeyMaterial, f: Frame, associatedData: Bytes): Result<Bytes> {
    var _ :- ValidateHeader(f.header);
    if |f.ciphertext| != f.header.ciphertextLen || |f.tag| != f.header.tagLen then Err(InvalidFormat) else
    var expected :- SequenceNonce(m.WriteNonce(f.header.role), f.header.sequence);
    if expected != f.nonce then Err(AuthenticationFailed) else
    var aad :- AadFor(f.header, associatedData);
    aead.Decrypt(alg, m.WriteKey(f.header.role), Aead.Ciphertext(f.nonce, f.ciphertext, f.tag), aad)
  }

  /** Sealing fails only for the reasons listed, and a sealed frame carries its inputs in the clear fields. */
  lemma SealSucceeds(aead: Aead.Provider, alg: Aead.Algorithm, m: Session.KeyMaterial, role: Session.Role, contentType: u8,
                     sequence: u64, plaintext: Bytes, associatedData: Bytes)
    requires aead.Sound() && m.SizesRight()
    ensures var r := Seal(aead, alg, m, role, contentType, sequence, plaintext, associatedData);
            && (r.Ok? <==> |plaintext| < TWO_TO_THE_32 && |associatedData| < TWO_TO_THE_32 && sequence <= MAX_SEQUENCE)
            && (r.Ok? ==> r.value.header == Header(VERSION, contentType, role, sequence, |plaintext|, 16))
            && (r.Ok? ==> SequenceNonce(m.WriteNonce(role), sequence) == Ok(r.value.nonce))
            && (r.Ok? ==> EncodeFrame(r.value).Ok?)
  {
    hide Hash.Sha256, Transcripts.Frame, HeaderBytes;
    if |plaintext| < TWO_TO_THE_32 {
      var header := Header(VERSION, contentType, role, sequence, |plaintext|, 16);
      var fields := AadFields(HeaderBytes(header), associatedData);
      assert fields[1].Fits() <==> |associatedData| < TWO_TO_THE_32;
      assert fields[0].Fits();
      assert AllFields(fields) <==> |associatedData| < TWO_TO_THE_32;
    }
  }

  /** What was sealed opens, under the same material and associated data, to the same plaintext. */
  lemma OpenOfSeal(aead: Aead.Provider, alg: Aead.Algorithm, m: Session.KeyMaterial, role: Session.Role, contentType: u8,
                   sequence: u64, plaintext: Bytes, associatedData: Bytes)
    requires aead.Sound()
    requires Seal(aead, alg, m, role, contentType, sequence, plaintext, associatedData).Ok?
    ensures var f := Seal(aead, alg, m, role, contentType, sequence, plaintext, associatedData).value;
            && Open(aead, alg, m, f, associatedData) == Ok(plaintext)
            && EncodeFrame(f).Ok? && DecodeFrame(EncodeFrame(f).value) == Ok(f)
  {
    hide Hash.Sha256, Digest, SequenceNonce, HeaderBytes;
    var f := Seal(aead, alg, m, role, contentType, sequence, plaintext, associatedData).value;
    var header := Header(VERSION, contentType, role, sequence, |plaintext|, 16);
    aead.DecryptOfEncrypt(alg, m.WriteKey(role), f.nonce, plaintext, AadFor(header, associatedData).value);
    assert f.header == header;
    DecodeOfEncodeFrame(f);
  }

  /** Equal record digests come from one header and one associated data, or the two transcripts collide. */
  lemma AadBinds(h: Header, a: Bytes, g: Header, b: Bytes)
    requires AadFor(h, a).Ok? && AadFor(h, a) == AadFor(g, b)
    ensures || (h == g && a == b)
            || Collision(Transcripts.Frame(RECORD_V1, AadFields(HeaderBytes(h), a)),
                         Transcripts.Frame(RECORD_V1, AadFields(HeaderBytes(g), b)))
  {
    var x, y := AadFields(HeaderBytes(h), a), AadFields(HeaderBytes(g), b);
    DigestBinds(RECORD_V1, x, RECORD_V1, y);
    if x == y {
      hide HeaderBytes;
      assert x[0] == y[0] && x[1] == y[1];
      DecodeOfEncodeHeader(h);
      DecodeOfEncodeHeader(g);
    }
  }
}
