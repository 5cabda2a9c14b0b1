/**
 * What a JSON Web Token (RFC 7519) carries in this system, and its string form.
 *
 * `jsonwebtoken` turns a payload and a secret into the compact serialization
 * `header.payload.signature` (base64url of JSON, then an HMAC). This model keeps
 * what that string determines and what the rest of the system relies on:
 *   - the payload: the claims plus `iat` and `exp` (whole seconds);
 *   - the signature, represented by the secret that produced it;
 *   - a string form that is non-empty, has no space in it (so it survives
 *     `Authorization: Bearer <token>`), and from which the token is recovered;
 *     two tokens are the same string exactly when they are the same token.
 * The concrete alphabet below (decimal digits, ',', '+', '-', '.') stands in
 * for base64url; cryptographic strength is not modelled.
 */
module TokenFormat {
  import opened Wrappers
  import opened Text

  /** The claims the backend signs: `id` always; `username` and `email` only in access tokens. */
  datatype Claims = Claims(id: nat, username: Option<string>, email: Option<string>)

  /** The decoded payload `jwt.verify` hands back: the claims plus issue and expiry times in seconds. */
  datatype Payload = Payload(claims: Claims, iat: nat, exp: nat)

  /** A signed token: its payload and the secret whose HMAC the signature is. */
  datatype Token = Token(payload: Payload, signedWith: string)

  /** Code points that are Unicode scalar values, i.e. that a `char` can hold. */
  predicate IsScalar(n: nat)
  {
    n < 0xD800 || 0xE000 <= n < 0x11_0000
  }

  function Codes(s: string): (r: seq<string>)
    ensures |r| == |s|
    ensures forall i :: 0 <= i < |r| ==> |r[i]| >= 1 && AllDigits(r[i])
  {
    if |s| == 0 then [] else [Decimal(s[0] as nat)] + Codes(s[1..])
  }

  /** A string field: '+' then the decimal code points, comma separated. */
  function EncodeString(s: string): string
  {
    "+" + Join(Codes(s), ",")
  }

  /** An absent field (a claim that is `undefined`, which JSON omits) is written '-'. */
  function EncodeOptional(o: Option<string>): string
  {
    match o
    case None => "-"
    case Some(s) => EncodeString(s)
  }

  function Fields(t: Token): seq<string>
  {
    [ Decimal(t.payload.claims.id),
      EncodeOptional(t.payload.claims.username),
      EncodeOptional(t.payload.claims.email),
      Decimal(t.payload.iat),
      Decimal(t.payload.exp),
      EncodeString(t.signedWith) ]
  }

  /** The token's string form: its six fields joined by '.'. */
  function Encode(t: Token): string
  {
    Join(Fields(t), ".")
  }

  function DecodeNat(f: string): Option<nat>
  {
    if |f| > 0 && AllDigits(f) then Some(DigitsValue(f)) else None
  }

  function DecodeCodes(parts: seq<string>): Option<string>
  {
    if |parts| == 0 then Some("")
    else match DecodeNat(parts[0])
      case None => None
      case Some(n) =>
        if !IsScalar(n) then None
        else match DecodeCodes(parts[1..])
          case None => None
          case Some(rest) => Some([n as char] + rest)
  }

  function DecodeString(f: string): Option<string>
  {
    if |f| == 0 || f[0] != '+' then None
    else if |f| == 1 then Some("")
    else DecodeCodes(Split(f[1..], ','))
  }

  function DecodeOptional(f: string): Option<Option<string>>
  {
    if f == "-" then Some(None)
    else match DecodeString(f)
      case None => None
      case Some(s) => Some(Some(s))
  }

  /** Reads the six fields back; says nothing yet about canonical form. */
  function Parse(s: string): Option<Token>
  {
    var p := Split(s, '.');
    if |p| != 6 then None
    else match (DecodeNat(p[0]), DecodeOptional(p[1]), DecodeOptional(p[2]),
                DecodeNat(p[3]), DecodeNat(p[4]), DecodeString(p[5]))
      case (Some(id), Some(u), Some(e), Some(iat), Some(exp), Some(key)) =>
        Some(Token(Payload(Claims(id, u, e), iat, exp), key))
      case _ => None
  }

  /**
   * The token a string is the form of, if any. Anything else (a random string,
   * a truncated or re-spaced token) is malformed and decodes to None.
   */
  function Decode(s: string): (r: Option<Token>)
    ensures r.Some? ==> Encode(r.value) == s
  {
    match Parse(s)
    case None => None
    case Some(t) => if Encode(t) == s then Some(t) else None
  }

  lemma {:induction false} DecodeNatDecimal(n: nat)
    ensures DecodeNat(Decimal(n)) == Some(n)
  {
    DecimalValue(n);
  }

  lemma {:induction false} DecodeCodesOfCodes(s: string)
    ensures DecodeCodes(Codes(s)) == Some(s)
  {
    if |s| > 0 {
      var c := Codes(s);
      assert c[0] == Decimal(s[0] as nat) && c[1..] == Codes(s[1..]);
      DecodeNatDecimal(s[0] as nat);
      DecodeCodesOfCodes(s[1..]);
      assert [(s[0] as nat) as char] + s[1..] == s;
    }
  }

  lemma {:induction false} CodesAvoid(s: string, c: char)
    requires !IsDigit(c)
    ensures forall i :: 0 <= i < |Codes(s)| ==> c !in Codes(s)[i]
  {
  }

  lemma {:induction false} DecodeEncodeString(s: string)
    ensures DecodeString(EncodeString(s)) == Some(s)
  {
    var f := EncodeString(s);
    if |s| > 0 {
      assert f[1..] == Join(Codes(s), ",");
      CodesAvoid(s, ',');
      SplitJoin(Codes(s), ',');
      DecodeCodesOfCodes(s);
    }
  }

  lemma {:induction false} EncodeStringAvoids(s: string, c: char)
    requires !IsDigit(c) && c != ',' && c != '+'
    ensures c !in EncodeString(s)
  {
    CodesAvoid(s, c);
    JoinAvoids(Codes(s), ",", c);
  }

  lemma {:induction false} FieldsAvoid(t: Token, c: char)
    requires !IsDigit(c) && c != ',' && c != '+' && c != '-'
    ensures forall i :: 0 <= i < |Fields(t)| ==> c !in Fields(t)[i]
  {
    EncodeStringAvoids(t.signedWith, c);
    var u, e := t.payload.claims.username, t.payload.claims.email;
    if u.Some? { EncodeStringAvoids(u.value, c); }
    if e.Some? { EncodeStringAvoids(e.value, c); }
  }

  /** An optional field reads back as written. */
  lemma {:induction false} DecodeOptionalEncode(o: Option<string>)
    ensures DecodeOptional(EncodeOptional(o)) == Some(o)
  {
    if o.Some? {
      DecodeEncodeString(o.value);
      assert EncodeOptional(o)[0] == '+';
    }
  }

  /** Decoding the string form of a token gives that token back. */
  lemma {:induction false} DecodeEncode(t: Token)
    ensures Decode(Encode(t)) == Some(t)
  {
    var f := Fields(t);
    FieldsAvoid(t, '.');
    SplitJoin(f, '.');
    assert Split(Encode(t), '.') == f;
    DecodeNatDecimal(t.payload.claims.id);
    DecodeNatDecimal(t.payload.iat);
    DecodeNatDecimal(t.payload.exp);
    DecodeEncodeString(t.signedWith);
    DecodeOptionalEncode(t.payload.claims.username);
    DecodeOptionalEncode(t.payload.claims.email);
  }

  /** A string decodes to a token exactly when it is that token's string form. */
  lemma DecodeIsInverse(s: string, t: Token)
    ensures Decode(s) == Some(t) <==> Encode(t) == s
  {
    DecodeEncode(t);
  }

  /** Two tokens have the same string form only if they are the same token. */
  lemma EncodeInjective(t1: Token, t2: Token)
    ensures Encode(t1) == Encode(t2) <==> t1 == t2
  {
    DecodeEncode(t1);
    DecodeEncode(t2);
  }

  /** The string form is non-empty and has no space, so it is one field of a space-separated header. */
  lemma {:induction false} EncodeIsOneWord(t: Token)
    ensures |Encode(t)| > 0
    ensures ' ' !in Encode(t)
  {
    FieldsAvoid(t, ' ');
    JoinAvoids(Fields(t), ".", ' ');
    JoinLength(Fields(t), ".");
  }
}
