/** The session key schedule and its updates (src/protocol/session.cpp). */
module Session {
  import opened Core
  import opened Codec
  import opened Hash
  import opened Kdf
  import opened Transcripts

  const KEY_BYTES: nat := 32
  const NONCE_BYTES: nat := 12
  const CONFIRMATION_BYTES: nat := 32
  const KEY_SCHEDULE_V1: Bytes := Ascii("QuantLib Key Schedule v1")
  const KEY_UPDATE_V1: Bytes := Ascii("QuantLib Key Update v1")

  datatype Role = Client | Server

  datatype Hello = Hello(clientNonce: Bytes, serverNonce: Bytes, transcriptHash: Bytes)

  datatype KeyMaterial = KeyMaterial(
    clientWriteKey: Bytes, serverWriteKey: Bytes, clientWriteNonce: Bytes, serverWriteNonce: Bytes, exporterSecret: Bytes)
  {
    function WriteKey(role: Role): Bytes {
      if role.Client? then clientWriteKey else serverWriteKey
    }

    function WriteNonce(role: Role): Bytes {
      if role.Client? then clientWriteNonce else serverWriteNonce
    }

    /** What `make_channel` checks; it does not look at the exporter secret. */
    predicate SizesRight() {
      && |clientWriteKey| == |serverWriteKey| == KEY_BYTES
      && |clientWriteNonce| == |serverWriteNonce| == NONCE_BYTES
    }
  }

  function InfoFields(name: Bytes, hello: Hello, context: Bytes): seq<Field> {
    [Field(Ascii("label"), name), Field(Ascii("client-nonce"), hello.clientNonce),
     Field(Ascii("server-nonce"), hello.serverNonce), Field(Ascii("transcript"), hello.transcriptHash),
     Field(Ascii("context"), context)]
  }

  /** `expand`: one named output of a secret. */
  function ExpandSecret(secret: Bytes, name: Bytes, hello: Hello, context: Bytes, len: nat): (r: Result<Bytes>)
    ensures r.Ok? ==> |r.value| == len
  {
    if secret == [] || len == 0 then Err(InvalidArgument) else
    var info :- Digest(KEY_SCHEDULE_V1, InfoFields(name, hello, context));
    Hkdf(secret, hello.transcriptHash, info, len)
  }

  function DeriveKeys(secret: Bytes, hello: Hello): (r: Result<KeyMaterial>)
    ensures r.Ok? ==> r.value.SizesRight() && |r.value.exporterSecret| == KEY_BYTES
  {
    var ck :- ExpandSecret(secret, Ascii("client write key"), hello, [], KEY_BYTES);
    var sk :- ExpandSecret(secret, Ascii("server write key"), hello, [], KEY_BYTES);
    var cn :- ExpandSecret(secret, Ascii("client write nonce"), hello, [], NONCE_BYTES);
    var sn :- ExpandSecret(secret, Ascii("server write nonce"), hello, [], NONCE_BYTES);
    var ex :- ExpandSecret(secret, Ascii("exporter secret"), hello, [], KEY_BYTES);
    Ok(KeyMaterial(ck, sk, cn, sn, ex))
  }

  function UpdateFields(generation: u64, context: Bytes): seq<Field> {
    [Field(Ascii("generation"), Be(generation, 8)), Field(Ascii("context"), context)]
  }

  /** The secret a key update derives the next key material from. */
  function UpdateSecret(current: KeyMaterial, hello: Hello, generation: u64, context: Bytes): (r: Result<Bytes>)
    ensures r.Ok? ==> |r.value| == KEY_BYTES
  {
    if generation == 0 || |current.exporterSecret| != KEY_BYTES then Err(InvalidArgument) else
    var updateContext :- Digest(KEY_UPDATE_V1, UpdateFields(generation, context));
    ExpandSecret(current.exporterSecret, Ascii("key update secret"), hello, updateContext, KEY_BYTES)
  }

  function UpdateKeys(current: KeyMaterial, hello: Hello, generation: u64, context: Bytes): (r: Result<KeyMaterial>)
    ensures r.Ok? ==> r.value.SizesRight() && |r.value.exporterSecret| == KEY_BYTES && generation != 0
  {
    var secret :- UpdateSecret(current, hello, generation, context);
    DeriveKeys(secret, hello)
  }

  function TagFields(current: KeyMaterial, generation: u64, context: Bytes): seq<Field> {
    [Field(Ascii("generation"), Be(generation, 8)), Field(Ascii("client-write-key"), current.clientWriteKey),
     Field(Ascii("server-write-key"), current.serverWriteKey), Field(Ascii("context"), context)]
  }

  function KeyUpdateTag(current: KeyMaterial, hello: Hello, generation: u64, context: Bytes): (r: Result<Bytes>)
    ensures r.Ok? ==> |r.value| == CONFIRMATION_BYTES && generation != 0
  {
    if generation == 0 then Err(InvalidArgument) else
    var tagContext :- Digest(KEY_UPDATE_V1, TagFields(current, generation, context));
    ExpandSecret(current.exporterSecret, Ascii("key update confirmation"), hello, tagContext, CONFIRMATION_BYTES)
  }

  /** Where the tag can be computed the update can fail for one reason only: the size of the exporter secret. */
  lemma UpdateFollowsTag(current: KeyMaterial, hello: Hello, generation: u64, context: Bytes)
    requires KeyUpdateTag(current, hello, generation, context).Ok?
    ensures UpdateKeys(current, hello, generation, context).Ok? <==> |current.exporterSecret| == KEY_BYTES
  {
    hide Sha256, Hkdf, Frame;
    var tagFields := TagFields(current, generation, context);
    assert AllFields(tagFields) && tagFields[3].Fits();
    if |current.exporterSecret| == KEY_BYTES {
      assert AllFields(UpdateFields(generation, context));
      var tagContext := Digest(KEY_UPDATE_V1, tagFields).value;
      var tagInfo := InfoFields(Ascii("key update confirmation"), hello, tagContext);
      assert AllFields(tagInfo) && tagInfo[1].Fits() && tagInfo[2].Fits() && tagInfo[3].Fits();
      var updateContext := Digest(KEY_UPDATE_V1, UpdateFields(generation, context)).value;
      HelloFits(Ascii("key update secret"), hello, updateContext);
      HelloFits(Ascii("client write key"), hello, []);
      HelloFits(Ascii("server write key"), hello, []);
      HelloFits(Ascii("client write nonce"), hello, []);
      HelloFits(Ascii("server write nonce"), hello, []);
      HelloFits(Ascii("exporter secret"), hello, []);
    }
  }

  /** And an update that works can be announced. */
  lemma TagFollowsUpdate(current: KeyMaterial, hello: Hello, generation: u64, context: Bytes)
    requires current.SizesRight() && UpdateKeys(current, hello, generation, context).Ok?
    ensures KeyUpdateTag(current, hello, generation, context).Ok?
  {
    hide Sha256, Hkdf, Frame, DeriveKeys;
    assert AllFields(UpdateFields(generation, context));
    assert UpdateFields(generation, context)[1].Fits();
    var tagFields := TagFields(current, generation, context);
    assert AllFields(tagFields);
    var updateContext := Digest(KEY_UPDATE_V1, UpdateFields(generation, context)).value;
    var info := InfoFields(Ascii("key update secret"), hello, updateContext);
    assert AllFields(info) && info[1].Fits() && info[2].Fits() && info[3].Fits();
    HelloFits(Ascii("key update confirmation"), hello, Digest(KEY_UPDATE_V1, tagFields).value);
  }

  lemma HelloFits(name: Bytes, hello: Hello, context: Bytes)
    requires |hello.clientNonce| < TWO_TO_THE_32 && |hello.serverNonce| < TWO_TO_THE_32
    requires |hello.transcriptHash| < TWO_TO_THE_32 && |name| < TWO_TO_THE_32 && |context| < TWO_TO_THE_32
    ensures AllFields(InfoFields(name, hello, context))
  {}

  // ---- What equal keys say about where they came from ----

  datatype Origin = Origin(secret: Bytes, name: Bytes, hello: Hello, context: Bytes) {
    function Info(): Bytes
      requires AllFields(InfoFields(name, hello, context))
    {
      Digest(KEY_SCHEDULE_V1, InfoFields(name, hello, context)).value
    }

    function Salt(): Bytes {
      if hello.transcriptHash == [] then Zeros(DIGEST_BYTES) else hello.transcriptHash
    }

    function Prk(): (prk: Bytes)
      ensures |prk| == DIGEST_BYTES
    {
      Hmac(Salt(), secret)
    }

    /** The message of the one HMAC that makes a 32-byte output. */
    function Message(): Bytes
      requires AllFields(InfoFields(name, hello, context))
    {
      Info() + [1]
    }
  }

  /** One of the five hash computations behind two outputs of `expand` collides. */
  predicate ExpandCollides(a: Origin, b: Origin)
    requires AllFields(InfoFields(a.name, a.hello, a.context)) && AllFields(InfoFields(b.name, b.hello, b.context))
  {
    || Collision(OuterText(a.Prk(), a.Message()), OuterText(b.Prk(), b.Message()))
    || Collision(InnerText(a.Prk(), a.Message()), InnerText(b.Prk(), b.Message()))
    || Collision(OuterText(a.Salt(), a.secret), OuterText(b.Salt(), b.secret))
    || Collision(InnerText(a.Salt(), a.secret), InnerText(b.Salt(), b.secret))
    || Collision(Frame(KEY_SCHEDULE_V1, InfoFields(a.name, a.hello, a.context)),
                 Frame(KEY_SCHEDULE_V1, InfoFields(b.name, b.hello, b.context)))
  }

  lemma OneBlock(o: Origin)
    requires ExpandSecret(o.secret, o.name, o.hello, o.context, KEY_BYTES).Ok?
    ensures AllFields(InfoFields(o.name, o.hello, o.context))
    ensures ExpandSecret(o.secret, o.name, o.hello, o.context, KEY_BYTES) == Ok(Hmac(o.Prk(), o.Message()))
  {
    hide Hmac, Digest, AllFields;
    var prk, info := o.Prk(), o.Info();
    assert T(prk, info, 0) + info + [1] == info + [1];
    assert Okm(prk, info, 1) == Okm(prk, info, 0) + T(prk, info, 1) == T(prk, info, 1);
    assert Blocks(KEY_BYTES) == 1;
    assert Expand(prk, info, KEY_BYTES) == Okm(prk, info, 1)[..32] == Hmac(prk, info + [1]);
  }

  lemma KeyBlockOfDigest(a: Bytes, b: Bytes)
    requires |a| == |b| == DIGEST_BYTES && KeyBlock(a) == KeyBlock(b)
    ensures a == b
  {
    assert a == KeyBlock(a)[..DIGEST_BYTES] == KeyBlock(b)[..DIGEST_BYTES] == b;
  }

  /** Equal 32-byte outputs come from one secret, one name, one hello and one context, or SHA-256 collides at one of
      the places listed. */
  lemma ExpandBinds(a: Origin, b: Origin)
    requires ExpandSecret(a.secret, a.name, a.hello, a.context, KEY_BYTES).Ok?
    requires ExpandSecret(a.secret, a.name, a.hello, a.context, KEY_BYTES) ==
             ExpandSecret(b.secret, b.name, b.hello, b.context, KEY_BYTES)
    ensures AllFields(InfoFields(a.name, a.hello, a.context)) && AllFields(InfoFields(b.name, b.hello, b.context))
    ensures a == b || ExpandCollides(a, b)
  {
    OneBlock(a);
    OneBlock(b);
    HmacBinds(a.Prk(), a.Message(), b.Prk(), b.Message());
    if !ExpandCollides(a, b) {
      KeyBlockOfDigest(a.Prk(), b.Prk());
      HmacBinds(a.Salt(), a.secret, b.Salt(), b.secret);
      hide Hmac, Hash.Sha256, OuterText, InnerText, Frame;
      assert a.Info() == a.Message()[..32] == b.Message()[..32] == b.Info();
      var x, y := InfoFields(a.name, a.hello, a.context), InfoFields(b.name, b.hello, b.context);
      DigestBinds(KEY_SCHEDULE_V1, x, KEY_SCHEDULE_V1, y);
      assert x[0] == y[0] && x[1] == y[1] && x[2] == y[2] && x[3] == y[3] && x[4] == y[4];
    }
  }

  /** Where the write key of `role` comes from when material is derived from `secret`. */
  function WriteKeyOrigin(secret: Bytes, hello: Hello, role: Role): Origin {
    Origin(secret, Ascii(if role.Client? then "client write key" else "server write key"), hello, [])
  }

  lemma DerivedKey(secret: Bytes, hello: Hello, role: Role)
    requires DeriveKeys(secret, hello).Ok?
    ensures var o := WriteKeyOrigin(secret, hello, role);
            ExpandSecret(o.secret, o.name, o.hello, o.context, KEY_BYTES) == Ok(DeriveKeys(secret, hello).value.WriteKey(role))
  {
    hide ExpandSecret;
  }

  /** Derived material has one write key for both directions only at an explicit SHA-256 collision. */
  lemma DirectionsBind(secret: Bytes, hello: Hello)
    requires DeriveKeys(secret, hello).Ok?
    requires DeriveKeys(secret, hello).value.clientWriteKey == DeriveKeys(secret, hello).value.serverWriteKey
    ensures OriginsCollide(WriteKeyOrigin(secret, hello, Client), WriteKeyOrigin(secret, hello, Server))
  {
    hide DeriveKeys, ExpandSecret, ExpandCollides;
    DerivedKey(secret, hello, Client);
    DerivedKey(secret, hello, Server);
    NamesDiffer();
    ExpandBinds(WriteKeyOrigin(secret, hello, Client), WriteKeyOrigin(secret, hello, Server));
  }

  // ---- Key updates ----

  datatype Update = Update(current: KeyMaterial, hello: Hello, generation: u64, context: Bytes) {
    function Result(): Result<KeyMaterial> {
      UpdateKeys(current, hello, generation, context)
    }

    /** The intermediate secret, and where it comes from. */
    function SecretOrigin(): Origin
      requires Result().Ok?
    {
      Origin(current.exporterSecret, Ascii("key update secret"), hello,
             Digest(KEY_UPDATE_V1, UpdateFields(generation, context)).value)
    }

    /** Where the write key of `role` comes from. */
    function KeyOrigin(role: Role): Origin
      requires Result().Ok?
    {
      WriteKeyOrigin(UpdateSecret(current, hello, generation, context).value, hello, role)
    }
  }

  /** Somewhere along the derivation of two write keys SHA-256 collides. */
  predicate UpdateCollides(a: Update, r: Role, b: Update, s: Role)
    requires a.Result().Ok? && b.Result().Ok?
  {
    || OriginsCollide(a.KeyOrigin(r), b.KeyOrigin(s))
    || OriginsCollide(a.SecretOrigin(), b.SecretOrigin())
    || Collision(Frame(KEY_UPDATE_V1, UpdateFields(a.generation, a.context)),
                 Frame(KEY_UPDATE_V1, UpdateFields(b.generation, b.context)))
  }

  predicate OriginsCollide(a: Origin, b: Origin) {
    && AllFields(InfoFields(a.name, a.hello, a.context))
    && AllFields(InfoFields(b.name, b.hello, b.context))
    && ExpandCollides(a, b)
  }

  /** A write key made by a key update fixes the role, the generation, the context, the hello and the exporter secret
      it was made from, or an explicit SHA-256 collision is at hand. */
  lemma UpdateBinds(a: Update, r: Role, b: Update, s: Role)
    requires a.Result().Ok? && b.Result().Ok?
    requires a.Result().value.WriteKey(r) == b.Result().value.WriteKey(s)
    ensures || UpdateCollides(a, r, b, s)
            || (r == s && a.generation == b.generation && a.context == b.context && a.hello == b.hello &&
                a.current.exporterSecret == b.current.exporterSecret)
  {
    hide Hash.Sha256, Hkdf, Frame, ExpandCollides, ExpandSecret;
    ExpandBinds(a.KeyOrigin(r), b.KeyOrigin(s));
    if a.KeyOrigin(r) == b.KeyOrigin(s) {
      NamesDiffer();
      ExpandBinds(a.SecretOrigin(), b.SecretOrigin());
      if a.SecretOrigin() == b.SecretOrigin() {
        var x, y := UpdateFields(a.generation, a.context), UpdateFields(b.generation, b.context);
        DigestBinds(KEY_UPDATE_V1, x, KEY_UPDATE_V1, y);
        if x == y {
          assert x[0] == y[0] && x[1] == y[1];
          Widths();
          FromBeOfBe(a.generation, 8);
          FromBeOfBe(b.generation, 8);
        }
      }
    }
  }

  /** A write key derived from a handshake secret equals one made by a key update only for the same direction and hello,
      and only if the handshake secret is that update's secret; or an explicit SHA-256 collision is at hand. */
  lemma FirstKeyBinds(secret: Bytes, hello: Hello, r: Role, b: Update, s: Role)
    requires DeriveKeys(secret, hello).Ok? && b.Result().Ok?
    requires DeriveKeys(secret, hello).value.WriteKey(r) == b.Result().value.WriteKey(s)
    ensures || OriginsCollide(WriteKeyOrigin(secret, hello, r), b.KeyOrigin(s))
            || (r == s && hello == b.hello && UpdateSecret(b.current, b.hello, b.generation, b.context) == Ok(secret))
  {
    hide DeriveKeys, ExpandSecret, ExpandCollides;
    DerivedKey(secret, hello, r);
    DerivedKey(UpdateSecret(b.current, b.hello, b.generation, b.context).value, b.hello, s);
    NamesDiffer();
    ExpandBinds(WriteKeyOrigin(secret, hello, r), b.KeyOrigin(s));
  }

  lemma NamesDiffer()
    ensures Ascii("client write key") != Ascii("server write key")
  {
    assert Ascii("client write key")[0] == 'c' as int && Ascii("server write key")[0] == 's' as int;
  }
}
