/** What a domain signature signs (src/security/ssm.cpp): a transcript digest of the key's handle, the domain, the
    algorithm and the message. */
module SsmSigning {
  import opened Core
  import opened Codec
  import opened Transcripts
  import Hash
  import SsmObject

  const SIGN_DOMAIN: Bytes := Ascii("QuantLib SSM Domain Sign v1")

  function SignedFields(h: SsmObject.Handle, algorithm: u16, domain: Bytes, message: Bytes): seq<Field> {
    [Field(Ascii("handle"), h), Field(Ascii("domain"), domain), Field(Ascii("algorithm"), Be(algorithm, 2)),
     Field(Ascii("message"), message)]
  }

  /** `domain_message`. */
  function DomainMessage(h: SsmObject.Handle, algorithm: u16, domain: Bytes, message: Bytes): Result<Bytes> {
    if domain == [] then Err(InvalidArgument) else
    match Digest(SIGN_DOMAIN, SignedFields(h, algorithm, domain, message))
    case Err(_) => Err(InvalidArgument)
    case Ok(d) => Ok(d)
  }

  /** Two signed digests agree only if handle, algorithm, domain and message all do, or two transcripts collide: a
      signature made for one key or one domain says nothing under another. */
  lemma DomainMessageBinds(h: SsmObject.Handle, algorithm: u16, domain: Bytes, message: Bytes,
                           g: SsmObject.Handle, other: u16, domain': Bytes, message': Bytes)
    requires DomainMessage(h, algorithm, domain, message).Ok?
    requires DomainMessage(h, algorithm, domain, message) == DomainMessage(g, other, domain', message')
    ensures || (h == g && algorithm == other && domain == domain' && message == message')
            || Hash.Collision(Frame(SIGN_DOMAIN, SignedFields(h, algorithm, domain, message)),
                              Frame(SIGN_DOMAIN, SignedFields(g, other, domain', message')))
  {
    var x, y := SignedFields(h, algorithm, domain, message), SignedFields(g, other, domain', message');
    DigestBinds(SIGN_DOMAIN, x, SIGN_DOMAIN, y);
    hide Digest, Frame, Hash.Collision, Be;
    if x == y {
      assert x[0] == y[0] && x[1] == y[1] && x[2] == y[2] && x[3] == y[3];
      Widths();
      FromBeOfBe(algorithm, 2);
      FromBeOfBe(other, 2);
    }
  }

  /** The appends of `domain_message`. */
  method BuildDomainMessage(h: SsmObject.Handle, algorithm: u16, domain: Bytes, message: Bytes) returns (r: Result<Bytes>)
    ensures r == DomainMessage(h, algorithm, domain, message)
  {
    hide Frame;
    if domain == [] {
      return Err(InvalidArgument);
    }
    var fields := SignedFields(h, algorithm, domain, message);
    var t := new Transcript(SIGN_DOMAIN);
    for i := 0 to 4
      invariant t.Valid() && t.domain == SIGN_DOMAIN && t.fields == fields[..i] && fresh(t)
    {
      var appended := t.Append(fields[i].name, fields[i].value);
      if appended.Err? {
        assert !fields[i].Fits() && fields[i] in fields;
        return Err(InvalidArgument);
      }
    }
    assert fields[..4] == fields;
    r := Ok(t.Finish());
  }
}
