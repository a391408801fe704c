/** The big-endian integers and length-prefixed strings that every wire and file format here is made of. */
module Codec {
  import opened Core

  function Pow256(w: nat): (p: nat)
    ensures p > 0
  {
    if w == 0 then 1 else 256 * Pow256(w - 1)
  }

  /** The low `w` bytes of `n`, most significant first. */
  function Be(n: nat, w: nat): (b: Bytes)
    ensures |b| == w
  {
    if w == 0 then [] else Be(n / 256, w - 1) + [n % 256]
  }

  function FromBe(b: Bytes): nat {
    if b == [] then 0 else FromBe(b[..|b| - 1]) * 256 + b[|b| - 1]
  }

  lemma Widths()
    ensures Pow256(1) == 0x100 && Pow256(2) == 0x1_0000
    ensures Pow256(4) == TWO_TO_THE_32 && Pow256(8) == TWO_TO_THE_64
  {
    assert Pow256(3) == 0x100_0000;
    assert Pow256(6) == 0x1_0000_0000_0000;
  }

  lemma {:induction false} FromBeOfBe(n: nat, w: nat)
    requires n < Pow256(w)
    ensures FromBe(Be(n, w)) == n
  {
    if w > 0 {
      FromBeOfBe(n / 256, w - 1);
      assert Be(n, w)[..w - 1] == Be(n / 256, w - 1);
    }
  }

  lemma {:induction false} BeOfFromBe(b: Bytes)
    ensures FromBe(b) < Pow256(|b|)
    ensures Be(FromBe(b), |b|) == b
  {
    if b != [] {
      BeOfFromBe(b[..|b| - 1]);
    }
  }

  /** Peeling the most significant byte instead of the least. */
  lemma {:induction false} BeHead(n: nat, w: nat)
    ensures Be(n, w + 1) == [n / Pow256(w) % 256] + Be(n, w)
  {
    if w > 0 {
      BeHead(n / 256, w - 1);
      DivDiv(n, Pow256(w - 1));
      assert Be(n, w + 1) == Be(n / 256, w) + [n % 256];
    }
  }

  lemma DivDiv(n: nat, p: nat)
    requires p > 0
    ensures (n / 256) / p == n / (256 * p)
  {
    var q, r := n / 256 / p, n / 256 % p;
    assert n == 256 * (q * p + r) + n % 256;
    assert n == q * (256 * p) + (256 * r + n % 256);
    assert 256 * r + n % 256 < 256 * p;
    Quotient(n, 256 * p, q, 256 * r + n % 256);
  }

  lemma Quotient(n: nat, d: nat, q: nat, r: nat)
    requires d > 0 && n == q * d + r && r < d
    ensures n / d == q
  {
    var e := n / d - q;
    assert n == (n / d) * d + n % d;
    assert e * d == r - n % d;
    assert e >= 1 ==> e * d >= d;
    assert e <= -1 ==> e * d <= -(d as int);
  }

  /** Writing `w` bytes keeps a number modulo 256^w. */
  lemma {:induction false} LowBytes(n: nat, q: nat, p: nat, r: nat, w: nat)
    requires p == Pow256(w) && n == q * p + r
    ensures Be(n, w) == Be(r, w)
  {
    if w > 0 {
      var p' := Pow256(w - 1);
      assert n == 256 * (q * p') + r;
      assert n / 256 == q * p' + r / 256 && n % 256 == r % 256;
      LowBytes(n / 256, q, p', r / 256, w - 1);
    }
  }

  lemma BeTruncates(n: nat, w: nat)
    ensures Be(n % Pow256(w), w) == Be(n, w)
  {
    var q, r := Division(n, Pow256(w));
    LowBytes(n, q, Pow256(w), r, w);
  }

  lemma Division(n: nat, d: nat) returns (q: nat, r: nat)
    requires d > 0
    ensures n == q * d + r && r == n % d
  {
    q, r := n / d, n % d;
  }

  /** `put_u16`, `put_u32` and `put_u64`: append the bytes of `value`, most significant first. */
  method PutWord(out: Bytes, value: nat, width: nat) returns (r: Bytes)
    ensures r == out + Be(value, width)
  {
    r := out;
    var i := width;
    while i > 0
      invariant 0 <= i <= width
      invariant r + Be(value, i) == out + Be(value, width)
    {
      BeHead(value, i - 1);
      i := i - 1;
      r := r + [value / Pow256(i) % 256];
    }
  }

  /** `take_u16`, `take_u32` and `take_u64`: read `width` bytes at the cursor and advance it. */
  method TakeWord(input: Bytes, o: nat, width: nat) returns (ok: bool, next: nat, value: nat)
    requires o <= |input|
    ensures ok == (o + width <= |input|)
    ensures ok ==> next == o + width && value == FromBe(input[o..next])
    ensures !ok ==> next == o
  {
    next, value := o, 0;
    if o + width > |input| {
      return false, o, 0;
    }
    ok := true;
    while next < o + width
      invariant o <= next <= o + width
      invariant value == FromBe(input[o..next])
    {
      assert input[o..next + 1][..next - o] == input[o..next];
      value := value * 256 + input[next];
      next := next + 1;
    }
  }

  // ---- Formats: a record is a list of values, each of a known kind ----

  datatype Kind = Word(width: nat) | Blob

  datatype Value = Num(width: nat, n: nat) | Octets(bytes: Bytes) {
    function KindOf(): Kind {
      match this
      case Num(w, _) => Word(w)
      case Octets(_) => Blob
    }

    /** The value is not truncated when written: the original casts lengths to 32 bits unchecked. */
    predicate Fits() {
      match this
      case Num(w, n) => n < Pow256(w)
      case Octets(b) => |b| < TWO_TO_THE_32
    }
  }

  function Put(v: Value): Bytes {
    match v
    case Num(w, n) => Be(n, w)
    case Octets(b) => Be(|b|, 4) + b
  }

  function PutAll(vs: seq<Value>): Bytes {
    if vs == [] then [] else Put(vs[0]) + PutAll(vs[1..])
  }

  predicate AllFit(vs: seq<Value>) {
    forall v | v in vs :: v.Fits()
  }

  function Kinds(vs: seq<Value>): (ks: seq<Kind>)
    ensures |ks| == |vs|
  {
    seq(|vs|, i requires 0 <= i < |vs| => vs[i].KindOf())
  }

  /** Read one value of the given kind off the front; the rest of the input is returned. */
  function Take(k: Kind, input: Bytes): Option<(Value, Bytes)> {
    match k
    case Word(w) =>
      if |input| < w then None else Some((Num(w, FromBe(input[..w])), input[w..]))
    case Blob =>
      if |input| < 4 then None else
      var len := FromBe(input[..4]);
      if |input| < 4 + len then None else Some((Octets(input[4..4 + len]), input[4 + len..]))
  }

  function TakeAll(ks: seq<Kind>, input: Bytes): Option<(seq<Value>, Bytes)> {
    if ks == [] then Some(([], input)) else
    var (v, rest) :- Take(ks[0], input);
    var (vs, end) :- TakeAll(ks[1..], rest);
    Some(([v] + vs, end))
  }

  lemma TakeOfPut(v: Value, rest: Bytes)
    requires v.Fits()
    ensures Take(v.KindOf(), Put(v) + rest) == Some((v, rest))
  {
    var input := Put(v) + rest;
    match v
    case Num(w, n) =>
      assert input[..w] == Be(n, w) && input[w..] == rest;
      FromBeOfBe(n, w);
    case Octets(b) =>
      Widths();
      FromBeOfBe(|b|, 4);
      assert input[..4] == Be(|b|, 4) && input[4..4 + |b|] == b && input[4 + |b|..] == rest;
  }

  lemma PutOfTake(k: Kind, input: Bytes)
    requires Take(k, input).Some?
    ensures var (v, rest) := Take(k, input).value; v.KindOf() == k && v.Fits() && Put(v) + rest == input
  {
    match k
    case Word(w) => BeOfFromBe(input[..w]);
    case Blob =>
      Widths();
      BeOfFromBe(input[..4]);
  }

  /** Reading back a written record returns it and leaves what followed. */
  lemma {:induction false} TakeAllOfPutAll(vs: seq<Value>, rest: Bytes)
    requires AllFit(vs)
    ensures TakeAll(Kinds(vs), PutAll(vs) + rest) == Some((vs, rest))
  {
    if vs == [] {
      assert PutAll(vs) + rest == rest;
    } else {
      var v, tail := vs[0], vs[1..];
      assert vs == [v] + tail;
      PutAllCons(v, tail, rest);
      TakeOfPut(v, PutAll(tail) + rest);
      hide Take, Put;
      var ks := Kinds(vs);
      assert ks[0] == v.KindOf() && ks[1..] == Kinds(tail);
      TakeAllOfPutAll(tail, rest);
    }
  }

  lemma KindsCons(v: Value, vs: seq<Value>)
    ensures Kinds([v] + vs) == [v.KindOf()] + Kinds(vs)
  {
    hide Value.KindOf;
    var all := [v] + vs;
    assert all[0] == v && forall i | 0 < i < |all| :: all[i] == vs[i - 1];
  }

  lemma NothingFits()
    ensures Kinds([]) == [] && AllFit([])
  {}

  lemma FitCons(v: Value, vs: seq<Value>)
    requires v.Fits() && AllFit(vs)
    ensures AllFit([v] + vs)
  {
    hide Value.Fits;
  }

  /** What can be read is exactly what would have been written. */
  lemma {:induction false} PutAllOfTakeAll(ks: seq<Kind>, input: Bytes)
    requires TakeAll(ks, input).Some?
    ensures var (vs, rest) := TakeAll(ks, input).value;
            Kinds(vs) == ks && AllFit(vs) && PutAll(vs) + rest == input
  {
    hide Take, Put, Kinds, AllFit, Value.KindOf, Value.Fits;
    if ks == [] {
      NothingFits();
    } else {
      PutOfTake(ks[0], input);
      var (v, rest) := Take(ks[0], input).value;
      PutAllOfTakeAll(ks[1..], rest);
      var (vs, end) := TakeAll(ks[1..], rest).value;
      PutAllCons(v, vs, end);
      KindsCons(v, vs);
      FitCons(v, vs);
      assert [ks[0]] + ks[1..] == ks;
    }
  }

  lemma PutAllCons(v: Value, vs: seq<Value>, end: Bytes)
    ensures PutAll([v] + vs) + end == Put(v) + (PutAll(vs) + end)
  {
    assert ([v] + vs)[1..] == vs;
  }

  // The fields of a parsed record, by position; the defaults are never met on a record of the right kinds.

  function U16At(vs: seq<Value>, i: nat): u16 {
    if i < |vs| && vs[i].Num? && vs[i].n < 0x1_0000 then vs[i].n else 0
  }

  function U32At(vs: seq<Value>, i: nat): u32 {
    if i < |vs| && vs[i].Num? && vs[i].n < TWO_TO_THE_32 then vs[i].n else 0
  }

  function U64At(vs: seq<Value>, i: nat): u64 {
    if i < |vs| && vs[i].Num? && vs[i].n < TWO_TO_THE_64 then vs[i].n else 0
  }

  function BytesAt(vs: seq<Value>, i: nat): Bytes {
    if i < |vs| && vs[i].Octets? then vs[i].bytes else []
  }

  lemma FieldAt(vs: seq<Value>, ks: seq<Kind>, i: nat)
    requires Kinds(vs) == ks && AllFit(vs) && i < |ks|
    ensures ks[i] == Word(2) ==> vs[i] == Num(2, U16At(vs, i))
    ensures ks[i] == Word(4) ==> vs[i] == Num(4, U32At(vs, i))
    ensures ks[i] == Word(8) ==> vs[i] == Num(8, U64At(vs, i))
    ensures ks[i] == Blob ==> vs[i] == Octets(BytesAt(vs, i))
  {
    Widths();
    assert vs[i].KindOf() == ks[i] && vs[i].Fits();
  }

  /** No value is longer than the record it is in. */
  lemma {:induction false} PutAllHolds(vs: seq<Value>, i: nat)
    requires i < |vs|
    ensures |Put(vs[i])| <= |PutAll(vs)|
  {
    if i > 0 {
      PutAllHolds(vs[1..], i - 1);
    }
  }

  /** Records of one format are a prefix code. */
  lemma PutAllInjective(a: seq<Value>, r: Bytes, b: seq<Value>, s: Bytes)
    requires Kinds(a) == Kinds(b) && AllFit(a) && AllFit(b)
    requires PutAll(a) + r == PutAll(b) + s
    ensures a == b && r == s
  {
    TakeAllOfPutAll(a, r);
    TakeAllOfPutAll(b, s);
  }

  /** `take_bytes` and `take_string`: a length, then that many bytes. */
  method TakeBlob(input: Bytes, o: nat) returns (ok: bool, next: nat, value: Bytes)
    requires o <= |input|
    ensures ok == Take(Blob, input[o..]).Some?
    ensures ok ==> next <= |input| && Take(Blob, input[o..]) == Some((Octets(value), input[next..]))
    ensures !ok ==> next == o || next == o + 4
  {
    var len;
    value := [];
    ok, next, len := TakeWord(input, o, 4);
    if !ok {
      return;
    }
    assert input[o..][..4] == input[o..next];
    if next + len > |input| {
      ok := false;
      return;
    }
    value := input[next..next + len];
    assert input[o..][4..4 + len] == value && input[o..][4 + len..] == input[next + len..];
    next := next + len;
  }

  // ---- Writing and reading a record field by field ----

  lemma PutAllSnoc(vs: seq<Value>, i: nat)
    requires i < |vs|
    ensures PutAll(vs[..i + 1]) == PutAll(vs[..i]) + Put(vs[i])
    decreases i
  {
    if i == 0 {
      var first := vs[..1];
      assert first[1..] == vs[..0];
    } else {
      assert vs[..i + 1][1..] == vs[1..][..i] && vs[..i][1..] == vs[1..][..i - 1];
      PutAllSnoc(vs[1..], i - 1);
    }
  }

  method WriteValue(out: Bytes, v: Value) returns (r: Bytes)
    ensures r == out + Put(v)
  {
    match v
    case Num(w, n) => r := PutWord(out, n, w);
    case Octets(b) =>
      r := PutWord(out, |b|, 4);
      r := r + b;
  }

  method WriteValues(out: Bytes, vs: seq<Value>) returns (r: Bytes)
    ensures r == out + PutAll(vs)
  {
    hide Put;
    r := out;
    assert PutAll(vs[..0]) == [];
    for i := 0 to |vs|
      invariant r == out + PutAll(vs[..i])
    {
      PutAllSnoc(vs, i);
      r := WriteValue(r, vs[i]);
    }
    assert vs[..|vs|] == vs;
  }

  function Onto(vs: seq<Value>, r: Option<(seq<Value>, Bytes)>): Option<(seq<Value>, Bytes)> {
    match r
    case None => None
    case Some((rest, end)) => Some((vs + rest, end))
  }

  lemma OntoOne(vs: seq<Value>, v: Value, r: Option<(seq<Value>, Bytes)>)
    ensures Onto(vs, Onto([v], r)) == Onto(vs + [v], r)
    ensures Onto([], r) == r
  {
    if r.Some? {
      assert vs + ([v] + r.value.0) == (vs + [v]) + r.value.0 && [] + r.value.0 == r.value.0;
    }
  }

  method ReadValue(k: Kind, input: Bytes, o: nat) returns (ok: bool, next: nat, v: Value)
    requires o <= |input|
    ensures ok == Take(k, input[o..]).Some?
    ensures ok ==> next <= |input| && Take(k, input[o..]) == Some((v, input[next..]))
  {
    v := Octets([]);
    match k
    case Word(w) =>
      var n;
      ok, next, n := TakeWord(input, o, w);
      v := Num(w, n);
      assert ok ==> input[o..][..w] == input[o..next] && input[o..][w..] == input[next..];
    case Blob =>
      var b;
      ok, next, b := TakeBlob(input, o);
      v := Octets(b);
  }

  /** A cursor over the fields of a record. */
  method ReadValues(ks: seq<Kind>, input: Bytes, o: nat) returns (ok: bool, next: nat, vs: seq<Value>)
    requires o <= |input|
    ensures ok == TakeAll(ks, input[o..]).Some?
    ensures ok ==> next <= |input| && TakeAll(ks, input[o..]) == Some((vs, input[next..]))
  {
    hide Take;
    next, vs := o, [];
    assert ks[0..] == ks;
    OntoOne([], Octets([]), TakeAll(ks, input[o..]));
    for i := 0 to |ks|
      invariant o <= next <= |input|
      invariant TakeAll(ks, input[o..]) == Onto(vs, TakeAll(ks[i..], input[next..]))
    {
      var v, after;
      ok, after, v := ReadValue(ks[i], input, next);
      assert ks[i..][0] == ks[i] && ks[i..][1..] == ks[i + 1..];
      if !ok {
        return;
      }
      TakesForward(ks[i], input, next, v, after);
      OntoOne(vs, v, TakeAll(ks[i + 1..], input[after..]));
      next, vs := after, vs + [v];
    }
    ok := true;
    assert vs + [] == vs;
  }

  lemma TakesForward(k: Kind, input: Bytes, o: nat, v: Value, next: nat)
    requires o <= |input| && next <= |input| && Take(k, input[o..]) == Some((v, input[next..]))
    ensures o <= next
  {
    PutOfTake(k, input[o..]);
  }

  /** A loop of `put_bytes`. */
  method WriteBlobs(out: Bytes, bs: seq<Bytes>) returns (r: Bytes)
    ensures r == out + PutBlobs(bs)
  {
    hide Put;
    r := out;
    var rest := bs;
    while rest != []
      invariant r + PutBlobs(rest) == out + PutBlobs(bs)
    {
      var next := WriteValue(r, Octets(rest[0]));
      assert next + PutBlobs(rest[1..]) == r + PutBlobs(rest);
      r, rest := next, rest[1..];
    }
  }

  function OntoBlobs(bs: seq<Bytes>, r: Option<(seq<Bytes>, Bytes)>): Option<(seq<Bytes>, Bytes)> {
    match r
    case None => None
    case Some((rest, end)) => Some((bs + rest, end))
  }

  lemma OntoOneBlob(bs: seq<Bytes>, b: Bytes, r: Option<(seq<Bytes>, Bytes)>)
    ensures OntoBlobs(bs, OntoBlobs([b], r)) == OntoBlobs(bs + [b], r)
    ensures OntoBlobs([], r) == r
  {
    if r.Some? {
      assert bs + ([b] + r.value.0) == (bs + [b]) + r.value.0 && [] + r.value.0 == r.value.0;
    }
  }

  /** A loop of `take_bytes`. */
  method ReadBlobs(n: nat, input: Bytes, o: nat) returns (ok: bool, next: nat, bs: seq<Bytes>)
    requires o <= |input|
    ensures ok == TakeBlobs(n, input[o..]).Some?
    ensures ok ==> next <= |input| && TakeBlobs(n, input[o..]) == Some((bs, input[next..]))
  {
    hide Take;
    next, bs := o, [];
    OntoOneBlob([], [], TakeBlobs(n, input[o..]));
    for i := 0 to n
      invariant next <= |input|
      invariant TakeBlobs(n, input[o..]) == OntoBlobs(bs, TakeBlobs(n - i, input[next..]))
    {
      var b, after;
      ok, after, b := TakeBlob(input, next);
      if !ok {
        return;
      }
      OntoOneBlob(bs, b, TakeBlobs(n - i - 1, input[after..]));
      next, bs := after, bs + [b];
    }
    ok := true;
    assert bs + [] == bs;
  }

  // ---- Lists of length-prefixed strings, of any length ----

  function PutBlobs(bs: seq<Bytes>): Bytes {
    if bs == [] then [] else Put(Octets(bs[0])) + PutBlobs(bs[1..])
  }

  lemma PutBlobsCons(x: Bytes, bs: seq<Bytes>, end: Bytes)
    ensures PutBlobs([x] + bs) + end == Put(Octets(x)) + (PutBlobs(bs) + end)
  {
    assert ([x] + bs)[1..] == bs;
  }

  lemma {:induction false} PutBlobsAppend(a: seq<Bytes>, b: seq<Bytes>)
    ensures PutBlobs(a + b) == PutBlobs(a) + PutBlobs(b)
  {
    if a == [] {
      assert a + b == b;
    } else {
      assert (a + b)[1..] == a[1..] + b;
      PutBlobsAppend(a[1..], b);
    }
  }

  /** Read `n` length-prefixed strings. */
  function TakeBlobs(n: nat, input: Bytes): Option<(seq<Bytes>, Bytes)> {
    if n == 0 then Some(([], input)) else
    var (v, rest) :- Take(Blob, input);
    var (bs, end) :- TakeBlobs(n - 1, rest);
    Some(([v.bytes] + bs, end))
  }

  lemma {:induction false} TakeBlobsOfPut(bs: seq<Bytes>, end: Bytes)
    requires forall x | x in bs :: |x| < TWO_TO_THE_32
    ensures TakeBlobs(|bs|, PutBlobs(bs) + end) == Some((bs, end))
  {
    hide Take, Put;
    if bs == [] {
      assert PutBlobs(bs) + end == end;
    } else {
      assert bs == [bs[0]] + bs[1..];
      PutBlobsCons(bs[0], bs[1..], end);
      TakeOfPut(Octets(bs[0]), PutBlobs(bs[1..]) + end);
      TakeBlobsOfPut(bs[1..], end);
    }
  }

  lemma {:induction false} PutOfTakeBlobs(n: nat, input: Bytes)
    requires TakeBlobs(n, input).Some?
    ensures var (bs, end) := TakeBlobs(n, input).value;
            |bs| == n && PutBlobs(bs) + end == input && forall x | x in bs :: |x| < TWO_TO_THE_32
  {
    hide Take, Put;
    if n > 0 {
      PutOfTake(Blob, input);
      var (v, rest) := Take(Blob, input).value;
      PutOfTakeBlobs(n - 1, rest);
      var (bs, end) := TakeBlobs(n - 1, rest).value;
      PutBlobsCons(v.bytes, bs, end);
    }
  }

  lemma NonEmptyPut(bs: seq<Bytes>)
    ensures PutBlobs(bs) == [] <==> bs == []
  {}

  /** Two lists with the same bytes are the same list, even when their lengths were unknown. */
  lemma {:induction false} PutBlobsInjective(a: seq<Bytes>, b: seq<Bytes>)
    requires forall x | x in a :: |x| < TWO_TO_THE_32
    requires forall x | x in b :: |x| < TWO_TO_THE_32
    requires PutBlobs(a) == PutBlobs(b)
    ensures a == b
  {
    NonEmptyPut(a);
    NonEmptyPut(b);
    hide Take, Put;
    if a != [] && b != [] {
      TakeOfPut(Octets(a[0]), PutBlobs(a[1..]));
      TakeOfPut(Octets(b[0]), PutBlobs(b[1..]));
      PutBlobsInjective(a[1..], b[1..]);
      assert a == [a[0]] + a[1..] && b == [b[0]] + b[1..];
    }
  }
}
