/** Signing of Java commands: canonical JSON under a message authentication code. */
module Signing {
  import opened Wrappers
  import opened Json
  import Base64Url
  import opened Text

  type Payload = map<string, Value>
  type Bytes = seq<Base64Url.Byte>

  /** The MAC is a parameter: any function of the secret and the message text. */
  type Mac = (Bytes, string) -> Bytes

  datatype Error = NoGatewayId | ShortSecret | NonceFailed | NotJson | NoSignature

  const SIGNATURE := "signature"
  const MIN_SECRET := 32

  function Without(p: Payload, key: string): Payload {
    p - {key}
  }

  /** Printing without the signature, reading that back, and printing it again. */
  function Canonical(p: Payload): Result<string, Error> {
    match ParseValue(Marshal(Map(Without(p, SIGNATURE))))
    case None => Err(NotJson)
    case Some((normalized, _)) => Ok(Marshal(normalized))
  }

  function Tag(mac: Mac, secret: Bytes, text: string): string {
    Base64Url.Encode(mac(secret, text))
  }

  /** The payload with the gateway's own fields; `nonce` is what the nonce source gives
      when it is asked. */
  function Stamped(p: Payload, gatewayId: string, issuedAt: int, nonce: Option<string>): Option<Payload> {
    var q := p["gatewayId" := Str(gatewayId)]["issuedAt" := Num(issuedAt)];
    if "nonce" in q then Some(q)
    else if nonce.None? then None
    else Some(q["nonce" := Str(nonce.value)])
  }

  function Signed(mac: Mac, gatewayId: string, secret: Bytes, p: Payload, issuedAt: int, nonce: Option<string>)
    : Result<Payload, Error>
  {
    if gatewayId == "" then Err(NoGatewayId)
    else if |secret| < MIN_SECRET then Err(ShortSecret)
    else match Stamped(p, gatewayId, issuedAt, nonce)
      case None => Err(NonceFailed)
      case Some(q) =>
        match Canonical(q)
        case Err(e) => Err(e)
        case Ok(text) => Ok(q[SIGNATURE := Str(Tag(mac, secret, text))])
  }

  function Verified(mac: Mac, secret: Bytes, signed: Payload): Result<bool, Error> {
    if |secret| < MIN_SECRET then Err(ShortSecret)
    else if SIGNATURE !in signed || !signed[SIGNATURE].Str? || signed[SIGNATURE].s == "" then Err(NoSignature)
    else match Canonical(Without(signed, SIGNATURE))
      case Err(e) => Err(e)
      case Ok(text) => Ok(signed[SIGNATURE].s == Tag(mac, secret, text))
  }

  // ----- the step-by-step forms

  method CloneMap(p: Payload) returns (out: Payload)
    ensures out == p
  {
    out := map[];
    var todo := p.Keys;
    while todo != {}
      invariant todo <= p.Keys && out == map k | k in p && k !in todo :: p[k]
      decreases todo
    {
      var key :| key in todo;
      out := out[key := p[key]];
      todo := todo - {key};
    }
  }

  method CanonicalPayload(payload: Payload) returns (r: Result<string, Error>)
    ensures r == Canonical(payload) == Ok(Marshal(Meaning(payload)))
    ensures PrintsSorted(payload, r.value)
  {
    CanonicalPrintsMeaning(payload);
    MeaningPrintsSorted(payload);
    var canonical := CloneMap(payload);
    canonical := canonical - {SIGNATURE};
    var raw := Marshal(Map(canonical));
    var normalized := ParseValue(raw);
    if normalized.None? {
      return Err(NotJson);
    }
    return Ok(Marshal(normalized.value.0));
  }

  method SignWithNonce(mac: Mac, gatewayId: string, secret: Bytes, payload: Payload, issuedAt: int,
                       nonce: Option<string>)
    returns (r: Result<Payload, Error>)
    ensures r == Signed(mac, gatewayId, secret, payload, issuedAt, nonce)
    ensures r.Ok? <==> CanSign(gatewayId, secret, payload, nonce)
    ensures r.Err? ==>
              r.error == if gatewayId == "" then NoGatewayId else if |secret| < 32 then ShortSecret else NonceFailed
    ensures r.Ok? ==> Authentic(mac, secret, r.value) && Completes(payload, gatewayId, issuedAt, nonce, r.value)
  {
    SigningOutcome(mac, gatewayId, secret, payload, issuedAt, nonce);
    if gatewayId == "" {
      return Err(NoGatewayId);
    }
    if |secret| < MIN_SECRET {
      return Err(ShortSecret);
    }
    var signed := CloneMap(payload);
    signed := signed["gatewayId" := Str(gatewayId)];
    signed := signed["issuedAt" := Num(issuedAt)];
    if "nonce" !in signed {
      if nonce.None? {
        return Err(NonceFailed);
      }
      signed := signed["nonce" := Str(nonce.value)];
    }
    var canonical := CanonicalPayload(signed);
    if canonical.Err? {
      assert false;  // canonicalising never fails
    }
    signed := signed[SIGNATURE := Str(Base64Url.Encode(mac(secret, canonical.value)))];
    return Ok(signed);
  }

  method Verify(mac: Mac, secret: Bytes, signed: Payload) returns (r: Result<bool, Error>)
    ensures r == Verified(mac, secret, signed)
    ensures r == if |secret| < 32 then Err(ShortSecret)
                 else if !CarriesSignature(signed) then Err(NoSignature)
                 else Ok(Authentic(mac, secret, signed))
  {
    if |secret| >= MIN_SECRET && CarriesSignature(signed) {
      VerifyMeans(mac, secret, signed);
    }
    if |secret| < MIN_SECRET {
      return Err(ShortSecret);
    }
    if SIGNATURE !in signed || !signed[SIGNATURE].Str? || signed[SIGNATURE].s == "" {
      return Err(NoSignature);
    }
    var unsigned := CloneMap(signed);
    unsigned := unsigned - {SIGNATURE};
    var canonical := CanonicalPayload(unsigned);
    if canonical.Err? {
      assert false;  // canonicalising never fails
    }
    var expected := Base64Url.Encode(mac(secret, canonical.value));
    return Ok(signed[SIGNATURE].s == expected);
  }

  /** The command as it goes on the wire, newline included. */
  method CommandLine(mac: Mac, gatewayId: string, secret: Bytes, payload: Payload, issuedAt: int,
                     nonce: Option<string>)
    returns (r: Result<string, Error>)
    ensures r.Ok? <==> CanSign(gatewayId, secret, payload, nonce)
    ensures r.Ok? ==>
              && |Lines(r.value)| == 1 && r.value == Lines(r.value)[0] + "\n"
              && var p := Unmarshal(r.value);
                 p.Some? && p.value.Map? && Authentic(mac, secret, p.value.entries)
                 && Completes(Received(payload), gatewayId, issuedAt, nonce, p.value.entries)
  {
    var signed := SignWithNonce(mac, gatewayId, secret, payload, issuedAt, nonce);
    if signed.Err? {
      return Err(signed.error);
    }
    var encoded := Marshal(Map(signed.value));
    CommandIsOneLine(signed.value);
    ReceivedArrives(signed.value);
    ReceivedIsAuthentic(mac, secret, payload, gatewayId, issuedAt, nonce, signed.value);
    return Ok(encoded + "\n");
  }

  // ----- what signing is for

  /** A payload that carries a signature at all. */
  predicate CarriesSignature(p: Payload) {
    "signature" in p && p["signature"].Str? && p["signature"].s != ""
  }

  /** The payload's signature is the tag of the JSON value it denotes. */
  ghost predicate Authentic(mac: Mac, secret: Bytes, p: Payload) {
    "signature" in p && p["signature"] == Str(Base64Url.Encode(mac(secret, Marshal(Meaning(p)))))
  }

  /** `signed` is the payload with the gateway's own fields set and every other kept. */
  ghost predicate Completes(p: Payload, gatewayId: string, issuedAt: int, nonce: Option<string>, signed: Payload) {
    && signed.Keys == p.Keys + {"gatewayId", "issuedAt", "nonce", "signature"}
    && signed["gatewayId"] == Str(gatewayId) && signed["issuedAt"] == Num(issuedAt)
    && ("nonce" !in p ==> nonce.Some? && signed["nonce"] == Str(nonce.value))
    && forall k :: k in p && k !in {"gatewayId", "issuedAt", "signature"} ==> signed[k] == p[k]
  }

  // ----- canonical text

  /** The JSON value a payload denotes once its signature is left out. */
  ghost function Meaning(p: Payload): Value {
    Denote(Map(Without(p, SIGNATURE)))
  }

  /** Canonicalising never fails, and gives the print of what the payload means. */
  lemma {:induction false} CanonicalPrintsMeaning(p: Payload)
    ensures Canonical(p) == Ok(Marshal(Meaning(p)))
  {
    var v := Map(Without(p, SIGNATURE));
    ParseMarshal(v, "");
    assert Marshal(v) + "" == Marshal(v);
  }

  /** Two payloads have the same canonical text exactly when they denote the same JSON
      value once the signature is left out. */
  lemma {:induction false} SameTextSameMeaning(p: Payload, q: Payload)
    ensures Canonical(p) == Canonical(q) <==> Meaning(p) == Meaning(q)
  {
    CanonicalPrintsMeaning(p);
    CanonicalPrintsMeaning(q);
    MarshalIsInjective(Map(Without(p, SIGNATURE)), Map(Without(q, SIGNATURE)));
  }

  /** The text lists the payload's members but its signature, each once, in increasing key
      order, with no space between them, each printed as what it denotes. */
  ghost predicate PrintsSorted(p: Payload, text: string) {
    exists keys: seq<string> :: InKeyOrder(keys, p.Keys - {"signature"}) && PrintsUnder(p, keys, text)
  }

  ghost predicate PrintsUnder(p: Payload, keys: seq<string>, text: string) {
    exists m: map<string, Value> ::
      && m.Keys == p.Keys - {"signature"} && (forall k :: k in m ==> m[k] == Denote(p[k]))
      && (forall i :: 0 <= i < |keys| ==> keys[i] in m)
      && text == "{" + CommaJoined(MemberTexts(m, keys)) + "}"
  }

  lemma {:induction false} MeaningPrintsSorted(p: Payload)
    ensures PrintsSorted(p, Marshal(Meaning(p)))
  {
    MeaningIsMap(p);
    var m := Meaning(p).entries;
    var keys := MapPrintsInOrder(m);
    assert PrintsUnder(p, keys, Marshal(Map(m)));
  }

  /** What reading a canonical text gives, as a payload. */
  lemma {:induction false} MeaningIsMap(p: Payload)
    ensures Meaning(p).Map? && SIGNATURE !in Meaning(p).entries
    ensures forall k :: k in p && k != SIGNATURE ==>
              k in Meaning(p).entries && Meaning(p).entries[k] == Denote(p[k])
    ensures Meaning(p).entries.Keys == p.Keys - {SIGNATURE}
  {
  }

  lemma {:induction false} CanonicalParses(p: Payload)
    ensures Canonical(p).Ok? && Unmarshal(Canonical(p).value) == Some(Meaning(p))
  {
    CanonicalPrintsMeaning(p);
    DenoteTwice(Map(Without(p, SIGNATURE)));
    UnmarshalMarshal(Meaning(p));
  }

  lemma {:induction false} MeaningMeansItself(p: Payload)
    ensures Meaning(p).Map? && Meaning(Meaning(p).entries) == Meaning(p)
  {
    MeaningIsMap(p);
    DenoteTwice(Map(Without(p, SIGNATURE)));
    assert Without(Meaning(p).entries, SIGNATURE) == Meaning(p).entries;
  }

  /** Canonicalising is idempotent through parsing: the canonical text parses to a
      payload whose canonical text it is. */
  lemma {:induction false} CanonicalIsIdempotent(p: Payload)
    ensures Canonical(p).Ok?
    ensures var parsed := Unmarshal(Canonical(p).value);
            && parsed.Some? && parsed.value.Map?
            && Canonical(parsed.value.entries) == Canonical(p)
  {
    CanonicalParses(p);
    MeaningMeansItself(p);
    CanonicalPrintsMeaning(p);
    CanonicalPrintsMeaning(Meaning(p).entries);
  }

  // ----- signatures across the wire

  /** What the other side has after the signed payload was printed, sent and parsed. */
  ghost function Received(signed: Payload): Payload {
    Denote(Map(signed)).entries
  }

  lemma {:induction false} ReceivedFields(signed: Payload)
    ensures Received(signed).Keys == signed.Keys
    ensures forall k :: k in signed ==> Received(signed)[k] == Denote(signed[k])
  {
  }

  lemma {:induction false} SameFieldsSameValue(a: Payload, b: Payload)
    requires a.Keys == b.Keys && forall k :: k in a ==> Denote(a[k]) == Denote(b[k])
    ensures Denote(Map(a)) == Denote(Map(b))
  {
    assert Denote(Map(a)).entries == Denote(Map(b)).entries;
  }

  lemma {:induction false} ReceivedMeansTheSame(signed: Payload)
    ensures Meaning(Received(signed)) == Meaning(signed)
  {
    var a, b := Without(Received(signed), SIGNATURE), Without(signed, SIGNATURE);
    assert a.Keys == b.Keys && forall k :: k in a ==> a[k] == Denote(b[k]) by { ReceivedFields(signed); }
    forall k | k in a ensures Denote(a[k]) == Denote(b[k]) {
      DenoteTwice(b[k]);
    }
    SameFieldsSameValue(a, b);
  }

  lemma {:induction false} ReceivedArrives(signed: Payload)
    ensures Unmarshal(Marshal(Map(signed)) + "\n") == Some(Map(Received(signed)))
  {
    UnmarshalLine(Map(signed));
  }

  /** Leaving the signature out before canonicalising changes nothing. */
  lemma {:induction false} SignatureIsIgnored(p: Payload, s: Value)
    ensures Canonical(Without(p, SIGNATURE)) == Canonical(p)
    ensures Canonical(p[SIGNATURE := s]) == Canonical(p)
  {
    assert Without(Without(p, SIGNATURE), SIGNATURE) == Without(p, SIGNATURE);
    assert Without(p[SIGNATURE := s], SIGNATURE) == Without(p, SIGNATURE);
  }

  /** A received payload verifies exactly when its signature is the tag of what it means. */
  lemma {:induction false} VerifyMeans(mac: Mac, secret: Bytes, r: Payload)
    requires |secret| >= MIN_SECRET && SIGNATURE in r && r[SIGNATURE].Str? && r[SIGNATURE].s != ""
    ensures Verified(mac, secret, r) == Ok(r[SIGNATURE].s == Tag(mac, secret, Marshal(Meaning(r))))
  {
    SignatureIsIgnored(r, Null);
    CanonicalPrintsMeaning(r);
  }

  lemma {:induction false} TagOfStamped(mac: Mac, secret: Bytes, q: Payload)
    ensures Canonical(q).Ok?
    ensures var tag := Tag(mac, secret, Canonical(q).value);
            tag == Tag(mac, secret, Marshal(Meaning(q[SIGNATURE := Str(tag)])))
    ensures mac(secret, Canonical(q).value) != [] ==> Tag(mac, secret, Canonical(q).value) != ""
  {
    CanonicalPrintsMeaning(q);
    var tag := Tag(mac, secret, Canonical(q).value);
    SignatureIsIgnored(q, Str(tag));
    CanonicalPrintsMeaning(q[SIGNATURE := Str(tag)]);
    Base64Url.EncodeShape(mac(secret, Canonical(q).value));
  }

  /** When signing succeeds. */
  predicate CanSign(gatewayId: string, secret: Bytes, p: Payload, nonce: Option<string>) {
    gatewayId != "" && |secret| >= 32 && ("nonce" in p || nonce.Some?)
  }

  lemma {:induction false} StampedSigns(
      mac: Mac, gatewayId: string, secret: Bytes, p: Payload, issuedAt: int, nonce: Option<string>)
    requires CanSign(gatewayId, secret, p, nonce)
    ensures Stamped(p, gatewayId, issuedAt, nonce).Some?
    ensures var q := Stamped(p, gatewayId, issuedAt, nonce).value;
            Signed(mac, gatewayId, secret, p, issuedAt, nonce) ==
            Ok(q[SIGNATURE := Str(Tag(mac, secret, Marshal(Meaning(q))))])
  {
    CanonicalPrintsMeaning(Stamped(p, gatewayId, issuedAt, nonce).value);
  }

  lemma StampedCompletes(p: Payload, gatewayId: string, issuedAt: int, nonce: Option<string>, tag: Value)
    requires "nonce" in p || nonce.Some?
    ensures Completes(p, gatewayId, issuedAt, nonce, Stamped(p, gatewayId, issuedAt, nonce).value[SIGNATURE := tag])
  {
    var q := p["gatewayId" := Str(gatewayId)]["issuedAt" := Num(issuedAt)];
    assert "nonce" in q <==> "nonce" in p;
  }

  lemma StampedIsAuthentic(mac: Mac, secret: Bytes, q: Payload)
    ensures Authentic(mac, secret, q[SIGNATURE := Str(Tag(mac, secret, Marshal(Meaning(q))))])
  {
    var tag := Str(Tag(mac, secret, Marshal(Meaning(q))));
    assert Without(q[SIGNATURE := tag], SIGNATURE) == Without(q, SIGNATURE);
  }

  /** Signing fails exactly on a missing gateway id, a short secret, or a nonce that is
      needed and not to be had. Otherwise it sets the gateway's own fields, keeps every
      other, and signs what the payload then means. */
  lemma {:induction false} SigningOutcome(
      mac: Mac, gatewayId: string, secret: Bytes, p: Payload, issuedAt: int, nonce: Option<string>)
    ensures var r := Signed(mac, gatewayId, secret, p, issuedAt, nonce);
            && (r.Ok? <==> CanSign(gatewayId, secret, p, nonce))
            && (r.Ok? ==> Authentic(mac, secret, r.value) && Completes(p, gatewayId, issuedAt, nonce, r.value))
  {
    if CanSign(gatewayId, secret, p, nonce) {
      StampedSigns(mac, gatewayId, secret, p, issuedAt, nonce);
      var q := Stamped(p, gatewayId, issuedAt, nonce).value;
      StampedIsAuthentic(mac, secret, q);
      StampedCompletes(p, gatewayId, issuedAt, nonce, Str(Tag(mac, secret, Marshal(Meaning(q)))));
    }
  }

  /** What arrives is as authentic, and as complete, as what was signed. */
  lemma {:induction false} ReceivedIsAuthentic(
      mac: Mac, secret: Bytes, p: Payload, gatewayId: string, issuedAt: int, nonce: Option<string>, signed: Payload)
    requires Authentic(mac, secret, signed) && Completes(p, gatewayId, issuedAt, nonce, signed)
    ensures Authentic(mac, secret, Received(signed))
    ensures Completes(Received(p), gatewayId, issuedAt, nonce, Received(signed))
  {
    ReceivedMeansTheSame(signed);
    ReceivedFields(signed);
    ReceivedFields(p);
    assert Received(signed)[SIGNATURE] == signed[SIGNATURE];
  }

  ghost predicate NeverEmpty(mac: Mac, secret: Bytes) {
    forall text :: mac(secret, text) != []
  }

  /** No two texts have the same tag under this secret. */
  ghost predicate Injective(mac: Mac, secret: Bytes) {
    forall a, b :: mac(secret, a) == mac(secret, b) ==> a == b
  }

  /** What signing adds: the tag of what the signed payload means. */
  lemma {:induction false} SignedCarriesTag(
      mac: Mac, gatewayId: string, secret: Bytes, p: Payload, issuedAt: int, nonce: Option<string>)
    requires NeverEmpty(mac, secret) && CanSign(gatewayId, secret, p, nonce)
    ensures var signed := Signed(mac, gatewayId, secret, p, issuedAt, nonce);
            && signed.Ok? && SIGNATURE in signed.value
            && var tag := Tag(mac, secret, Marshal(Meaning(signed.value)));
               tag != "" && signed.value[SIGNATURE] == Str(tag)
  {
    TagOfStamped(mac, secret, Stamped(p, gatewayId, issuedAt, nonce).value);
  }

  /** Signing over transport. Whatever the payload holds, however its structs order their
      fields and whether or not it already has a signature: once signed, printed, sent as
      a line and parsed, it verifies under the same secret. */
  lemma {:induction false} SignedPayloadVerifies(
      mac: Mac, gatewayId: string, secret: Bytes, p: Payload, issuedAt: int, nonce: Option<string>)
    requires NeverEmpty(mac, secret) && CanSign(gatewayId, secret, p, nonce)
    ensures var signed := Signed(mac, gatewayId, secret, p, issuedAt, nonce);
            && signed.Ok?
            && var parsed := Unmarshal(Marshal(Map(signed.value)) + "\n");
               parsed.Some? && parsed.value.Map? && Verified(mac, secret, parsed.value.entries) == Ok(true)
  {
    SignedCarriesTag(mac, gatewayId, secret, p, issuedAt, nonce);
    var signed := Signed(mac, gatewayId, secret, p, issuedAt, nonce).value;
    var r := Received(signed);
    ReceivedArrives(signed);
    ReceivedMeansTheSame(signed);
    assert SIGNATURE in r && r[SIGNATURE] == signed[SIGNATURE] by { ReceivedFields(signed); }
    VerifyMeans(mac, secret, r);
  }

  /** A payload that is given some signature verifies exactly when that is its own tag. */
  lemma {:induction false} RelabelledVerify(mac: Mac, secret: Bytes, other: Payload, tag: string)
    requires |secret| >= MIN_SECRET && tag != ""
    ensures Verified(mac, secret, other[SIGNATURE := Str(tag)]) ==
            Ok(tag == Tag(mac, secret, Marshal(Meaning(other))))
  {
    var r := other[SIGNATURE := Str(tag)];
    assert Meaning(r) == Meaning(other) by {
      assert Without(r, SIGNATURE) == Without(other, SIGNATURE);
    }
    VerifyMeans(mac, secret, r);
  }

  lemma {:induction false} TagsShowMeaning(mac: Mac, secret: Bytes, p: Payload, q: Payload)
    requires Injective(mac, secret)
    ensures Tag(mac, secret, Marshal(Meaning(p))) == Tag(mac, secret, Marshal(Meaning(q))) <==>
            Meaning(p) == Meaning(q)
  {
    Base64Url.EncodeIsInjective(mac(secret, Marshal(Meaning(p))), mac(secret, Marshal(Meaning(q))));
    MarshalIsInjective(Map(Without(p, SIGNATURE)), Map(Without(q, SIGNATURE)));
  }

  /** Tampering shows. If the MAC is injective under this secret, then any payload that is
      given the signature made for another verifies exactly when it denotes the same JSON
      value, signature apart. */
  lemma {:induction false} TamperingShows(
      mac: Mac, gatewayId: string, secret: Bytes, p: Payload, issuedAt: int, nonce: Option<string>, other: Payload)
    requires Injective(mac, secret) && NeverEmpty(mac, secret) && CanSign(gatewayId, secret, p, nonce)
    ensures var signed := Signed(mac, gatewayId, secret, p, issuedAt, nonce);
            && signed.Ok? && SIGNATURE in signed.value
            && Verified(mac, secret, other[SIGNATURE := signed.value[SIGNATURE]]) ==
               Ok(Meaning(other) == Meaning(signed.value))
  {
    SignedCarriesTag(mac, gatewayId, secret, p, issuedAt, nonce);
    var signed := Signed(mac, gatewayId, secret, p, issuedAt, nonce).value;
    RelabelledVerify(mac, secret, other, signed[SIGNATURE].s);
    TagsShowMeaning(mac, secret, signed, other);
  }

  /** One command, one line: splitting what was sent on newline gives back exactly the
      printed command, whatever text the payload carries. */
  lemma {:induction false} CommandIsOneLine(signed: Payload)
    ensures Lines(Marshal(Map(signed)) + "\n") == [Marshal(Map(signed))]
  {
    var text := Marshal(Map(signed));
    MarshalPrintable(Map(signed));
    assert !HasNewline(text);
    LinesOfJoined([text]);
    assert Joined([]) == "" && [text][1..] == [];
    assert Joined([text]) == text + "\n" + "";
  }
}
