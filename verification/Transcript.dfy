/** Domain-separated transcripts: named fields framed by 32-bit lengths (src/protocol/transcript.cpp). */
module Transcripts {
  import opened Core
  import opened Codec
  import opened Hash

  datatype Field = Field(name: Bytes, value: Bytes) {
    /** What `append_field` accepts. */
    predicate Fits() {
      0 < |name| < TWO_TO_THE_32 && |value| < TWO_TO_THE_32
    }
  }

  predicate AllFields(fields: seq<Field>) {
    forall f | f in fields :: f.Fits()
  }

  /** Name, value, name, value, ... */
  function Flatten(fields: seq<Field>): seq<Bytes> {
    if fields == [] then [] else [fields[0].name, fields[0].value] + Flatten(fields[1..])
  }

  const DOMAIN: Bytes := Ascii("domain")

  /** The constructor ignores the failure to append an oversized domain, leaving the buffer empty. */
  function Opening(domain: Bytes): seq<Bytes> {
    if |domain| < TWO_TO_THE_32 then [DOMAIN, domain] else []
  }

  /** The buffer of a transcript. */
  function Frame(domain: Bytes, fields: seq<Field>): Bytes {
    PutBlobs(Opening(domain) + Flatten(fields))
  }

  lemma {:induction false} FlattenSnoc(fields: seq<Field>, f: Field)
    ensures Flatten(fields + [f]) == Flatten(fields) + [f.name, f.value]
  {
    if fields == [] {
      assert fields + [f] == [f];
    } else {
      assert (fields + [f])[1..] == fields[1..] + [f];
      FlattenSnoc(fields[1..], f);
    }
  }

  lemma {:induction false} FlattenInjective(a: seq<Field>, b: seq<Field>)
    requires Flatten(a) == Flatten(b)
    ensures a == b
  {
    if a != [] && b != [] {
      assert Flatten(a)[0] == a[0].name && Flatten(a)[1] == a[0].value && Flatten(a)[2..] == Flatten(a[1..]);
      assert Flatten(b)[0] == b[0].name && Flatten(b)[1] == b[0].value && Flatten(b)[2..] == Flatten(b[1..]);
      FlattenInjective(a[1..], b[1..]);
      assert a == [a[0]] + a[1..] && b == [b[0]] + b[1..];
    }
  }

  lemma {:induction false} FlattenShort(fields: seq<Field>)
    requires AllFields(fields)
    ensures forall x | x in Flatten(fields) :: |x| < TWO_TO_THE_32
  {
    if fields != [] {
      assert fields[0] in fields && fields[0].Fits();
      FlattenShort(fields[1..]);
    }
  }

  /** Equal buffers come from equal domains and equal field lists, of whatever lengths. */
  lemma FrameInjective(d: Bytes, a: seq<Field>, e: Bytes, b: seq<Field>)
    requires AllFields(a) && AllFields(b) && |d| < TWO_TO_THE_32 && |e| < TWO_TO_THE_32
    requires Frame(d, a) == Frame(e, b)
    ensures d == e && a == b
  {
    FlattenShort(a);
    FlattenShort(b);
    var x, y := Opening(d) + Flatten(a), Opening(e) + Flatten(b);
    PutBlobsInjective(x, y);
    assert x[1] == d && y[1] == e && x[2..] == Flatten(a) && y[2..] == Flatten(b);
    FlattenInjective(a, b);
  }

  /** Without the bound on the domain framing is ambiguous: an oversized domain vanishes, and its fields can spell
      another domain. */
  lemma OversizedDomainCollides(long: Bytes, d: Bytes, fields: seq<Field>)
    requires |long| >= TWO_TO_THE_32 && |d| < TWO_TO_THE_32
    ensures Frame(long, [Field(DOMAIN, d)] + fields) == Frame(d, fields) && long != d
  {
    assert ([Field(DOMAIN, d)] + fields)[1..] == fields;
    assert Opening(long) + Flatten([Field(DOMAIN, d)] + fields) == Opening(d) + Flatten(fields);
  }

  /** The digest of a transcript built field by field, or the error of the first field that does not fit. */
  function Digest(domain: Bytes, fields: seq<Field>): (r: Result<Bytes>)
    ensures r.Ok? <==> AllFields(fields)
    ensures r.Ok? ==> |r.value| == 32
  {
    if AllFields(fields) then Ok(Sha256(Frame(domain, fields))) else Err(InternalError)
  }

  /** Equal digests come from equal transcripts, or the two buffers collide under SHA-256. */
  lemma DigestBinds(d: Bytes, a: seq<Field>, e: Bytes, b: seq<Field>)
    requires |d| < TWO_TO_THE_32 && |e| < TWO_TO_THE_32
    requires Digest(d, a).Ok? && Digest(d, a) == Digest(e, b)
    ensures (d == e && a == b) || Collision(Frame(d, a), Frame(e, b))
  {
    hide Sha256;
    if Frame(d, a) == Frame(e, b) {
      FrameInjective(d, a, e, b);
    }
  }

  class Transcript {
    const domain: Bytes
    var buffer: Bytes
    /** Everything appended so far. */
    ghost var fields: seq<Field>

    ghost predicate Valid()
      reads this
    {
      AllFields(fields) && buffer == Frame(domain, fields)
    }

    constructor (domain: Bytes)
      ensures Valid() && this.domain == domain && fields == []
    {
      this.domain := domain;
      fields := [];
      buffer := if |domain| < TWO_TO_THE_32 then FieldBytes(DOMAIN, domain) else [];
      new;
      EmptyFrame(domain);
    }

    method Append(name: Bytes, value: Bytes) returns (r: Result<Unit>)
      requires Valid()
      modifies this
      ensures Valid()
      ensures r == if Field(name, value).Fits() then Ok(Unit) else Err(InvalidArgument)
      ensures r.Ok? ==> fields == old(fields) + [Field(name, value)] && buffer == old(buffer) + FieldBytes(name, value)
      ensures r.Err? ==> fields == old(fields) && buffer == old(buffer)
    {
      if name == [] {
        return Err(InvalidArgument);
      }
      if |name| > 0xffff_ffff || |value| > 0xffff_ffff {
        return Err(InvalidArgument);
      }
      FrameGrows(domain, fields, Field(name, value));
      hide Frame;
      fields := fields + [Field(name, value)];
      buffer := PushField(buffer, name, value);
      r := Ok(Unit);
    }

    method AppendU64(name: Bytes, value: u64) returns (r: Result<Unit>)
      requires Valid()
      modifies this
      ensures Valid()
      ensures r.Ok? <==> Field(name, Be(value, 8)).Fits()
      ensures r.Ok? ==> fields == old(fields) + [Field(name, Be(value, 8))]
      ensures r.Err? ==> fields == old(fields) && buffer == old(buffer)
    {
      var encoded := PutWord([], value, 8);
      assert encoded == Be(value, 8);
      r := Append(name, encoded);
    }

    function Finish(): (digest: Bytes)
      requires Valid()
      reads this
      ensures Digest(domain, fields) == Ok(digest)
    {
      Sha256(buffer)
    }
  }

  function FieldBytes(name: Bytes, value: Bytes): Bytes {
    Be(|name|, 4) + name + Be(|value|, 4) + value
  }

  /** The pushes of `append_field`. */
  method PushField(buffer: Bytes, name: Bytes, value: Bytes) returns (out: Bytes)
    ensures out == buffer + FieldBytes(name, value)
  {
    out := PutWord(buffer, |name|, 4);
    out := out + name;
    out := PutWord(out, |value|, 4);
    out := out + value;
  }

  lemma FieldIsTwoBlobs(name: Bytes, value: Bytes)
    ensures FieldBytes(name, value) == PutBlobs([name, value])
  {
    assert [name, value][1..] == [value];
    assert PutBlobs([value]) == Put(Octets(value)) + PutBlobs([]);
    assert PutBlobs([name, value]) == Put(Octets(name)) + PutBlobs([value]);
  }

  lemma EmptyFrame(domain: Bytes)
    ensures Frame(domain, []) == if |domain| < TWO_TO_THE_32 then FieldBytes(DOMAIN, domain) else []
  {
    FieldIsTwoBlobs(DOMAIN, domain);
    assert Opening(domain) + Flatten([]) == Opening(domain);
  }

  lemma FrameGrows(domain: Bytes, fields: seq<Field>, f: Field)
    ensures Frame(domain, fields + [f]) == Frame(domain, fields) + FieldBytes(f.name, f.value)
  {
    FlattenSnoc(fields, f);
    PutBlobsAppend(Opening(domain) + Flatten(fields), [f.name, f.value]);
    FieldIsTwoBlobs(f.name, f.value);
    assert Opening(domain) + Flatten(fields + [f]) == (Opening(domain) + Flatten(fields)) + [f.name, f.value];
  }
}
