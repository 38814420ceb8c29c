/** Signed cookies (internal/crypto/signed_cookie.go): "kid.payload.signature" over an
    encrypted payload in base64url (section 5 of RFC 4648). A char stands for one byte.
    SHA-256, HMAC and AES-GCM are ideal: injective, and opening undoes sealing. */
module SignedCookie {
  import opened Wrappers
  import opened Strings

  // ---------- base64url without padding ----------

  function Digit64(n: nat): (c: char)
    requires n < 64
  {
    if n < 26 then ('A' as int + n) as char
    else if n < 52 then ('a' as int + n - 26) as char
    else if n < 62 then ('0' as int + n - 52) as char
    else if n == 62 then '-' else '_'
  }

  function Value64(c: char): Option<int> {
    if 'A' <= c <= 'Z' then Some(c as int - 'A' as int)
    else if 'a' <= c <= 'z' then Some(c as int - 'a' as int + 26)
    else if '0' <= c <= '9' then Some(c as int - '0' as int + 52)
    else if c == '-' then Some(62) else if c == '_' then Some(63) else None
  }

  lemma {:induction false} DigitValue(n: nat)
    requires n < 64
    ensures Value64(Digit64(n)) == Some(n) && Digit64(n) != '.' && Digit64(n) != '\r' && Digit64(n) != '\n'
  {
  }

  function Encode64(s: string): string
    requires Bytes(s)
  {
    if |s| == 0 then ""
    else if |s| == 1 then [Digit64(s[0] as int / 4), Digit64(s[0] as int % 4 * 16)]
    else if |s| == 2 then
      [Digit64(s[0] as int / 4), Digit64(s[0] as int % 4 * 16 + s[1] as int / 16), Digit64(s[1] as int % 16 * 4)]
    else
      [Digit64(s[0] as int / 4), Digit64(s[0] as int % 4 * 16 + s[1] as int / 16),
       Digit64(s[1] as int % 16 * 4 + s[2] as int / 64), Digit64(s[2] as int % 64)] + Encode64(s[3..])
  }

  /** The decoder skips line breaks. */
  function WithoutBreaks(s: string): string {
    if s == "" then "" else (if s[0] == '\r' || s[0] == '\n' then "" else [s[0]]) + WithoutBreaks(s[1..])
  }

  function Triple(a: int, b: int, c: int, d: int): string
    requires 0 <= a < 64 && 0 <= b < 64 && 0 <= c < 64 && 0 <= d < 64
  {
    [(a * 4 + b / 16) as char, (b % 16 * 16 + c / 4) as char, (c % 4 * 64 + d) as char]
  }

  predicate Digits(s: string) {
    forall i :: 0 <= i < |s| ==> Value64(s[i]).Some?
  }

  lemma {:induction false} ValueBounded(c: char)
    requires Value64(c).Some?
    ensures 0 <= Value64(c).value < 64
  {
  }

  function Quartets(s: string): Option<string>
    requires Digits(s)
  {
    if |s| == 0 then Some("")
    else if |s| == 1 then None
    else
      ValueBounded(s[0]); ValueBounded(s[1]);
      var (a, b) := (Value64(s[0]).value, Value64(s[1]).value);
      if |s| == 2 then Some(Triple(a, b, 0, 0)[..1])
      else
        ValueBounded(s[2]);
        var c := Value64(s[2]).value;
        if |s| == 3 then Some(Triple(a, b, c, 0)[..2])
        else
          ValueBounded(s[3]);
          var rest := Quartets(s[4..]);
          if rest.None? then None else Some(Triple(a, b, c, Value64(s[3]).value) + rest.value)
  }

  function Decode64(s: string): Option<string> {
    var t := WithoutBreaks(s);
    if Digits(t) then Quartets(t) else None
  }

  lemma {:induction false} EncodedDigits(s: string)
    requires Bytes(s)
    ensures Digits(Encode64(s)) && '.' !in Encode64(s) && '\r' !in Encode64(s) && '\n' !in Encode64(s)
    ensures s != "" ==> Encode64(s) != ""
  {
    forall n: nat | n < 64 ensures Value64(Digit64(n)).Some? && Digit64(n) !in ".\r\n" { DigitValue(n); }
    hide Digit64, Value64;
    if |s| <= 2 {
    } else {
      EncodedDigits(s[3..]);
    }
  }

  lemma {:induction false} TripleBack(x: int, y: int, z: int)
    requires 0 <= x < 256 && 0 <= y < 256 && 0 <= z < 256
    ensures Triple(x / 4, x % 4 * 16 + y / 16, y % 16 * 4 + z / 64, z % 64) == [x as char, y as char, z as char]
  {
    Recombine(x, y, 4, 16);
    Recombine(y, z, 16, 4);
    Recombine(z, 0, 64, 1);
  }

  lemma {:induction false} Recombine(x: int, y: int, d: int, m: int)
    requires 0 <= x < 256 && 0 <= y < 256 && ((d == 4 && m == 16) || (d == 16 && m == 4) || (d == 64 && m == 1))
    ensures x == x / d * d + x % d
    ensures 0 <= x / d < 64 && 0 <= x % d * m + y / (256 / m) < 64
    ensures (x % d * m + y / (256 / m)) / m == x % d + y / (256 / m) / m
  {
  }

  lemma {:induction false} DigitsBack(a: nat, b: nat, c: nat, d: nat)
    requires a < 64 && b < 64 && c < 64 && d < 64
    ensures Digits([Digit64(a), Digit64(b)]) && Quartets([Digit64(a), Digit64(b)]) == Some(Triple(a, b, 0, 0)[..1])
    ensures Digits([Digit64(a), Digit64(b), Digit64(c)])
            && Quartets([Digit64(a), Digit64(b), Digit64(c)]) == Some(Triple(a, b, c, 0)[..2])
  {
    DigitValue(a); DigitValue(b); DigitValue(c);
    hide Digit64, Value64, Triple;
  }

  lemma {:induction false} QuartetBack(a: nat, b: nat, c: nat, d: nat, rest: string)
    requires a < 64 && b < 64 && c < 64 && d < 64 && Digits(rest)
    ensures var q := [Digit64(a), Digit64(b), Digit64(c), Digit64(d)];
            Digits(q + rest)
              && (Quartets(rest).Some? ==> Quartets(q + rest) == Some(Triple(a, b, c, d) + Quartets(rest).value))
  {
    DigitValue(a); DigitValue(b); DigitValue(c); DigitValue(d);
    hide Digit64, Value64, Triple;
    var q := [Digit64(a), Digit64(b), Digit64(c), Digit64(d)];
    assert (q + rest)[4..] == rest;
  }

  lemma {:induction false} QuartetsBack(s: string)
    requires Bytes(s)
    ensures Digits(Encode64(s)) && Quartets(Encode64(s)) == Some(s)
  {
    hide Digit64, Value64, Triple, Digits, Quartets;
    if |s| == 0 {
      EmptyQuartets();
    } else {
      var x := s[0] as int;
      var y := if |s| > 1 then s[1] as int else 0;
      var z := if |s| > 2 then s[2] as int else 0;
      TripleBack(x, y, z);
      var (a, b, c, d) := (x / 4, x % 4 * 16 + y / 16, y % 16 * 4 + z / 64, z % 64);
      if |s| == 1 {
        DigitsBack(a, b, 0, 0);
        assert s == [x as char, y as char, z as char][..1];
      } else if |s| == 2 {
        DigitsBack(a, b, c, 0);
        assert s == [x as char, y as char, z as char][..2];
      } else {
        QuartetsBack(s[3..]);
        QuartetBack(a, b, c, d, Encode64(s[3..]));
        assert s == [x as char, y as char, z as char] + s[3..];
      }
    }
  }

  lemma {:induction false} EmptyQuartets()
    ensures Digits("") && Quartets("") == Some("")
  {
  }

  lemma {:induction false} NoBreaks(s: string)
    requires '\r' !in s && '\n' !in s
    ensures WithoutBreaks(s) == s
  {
    if s == "" {
    } else {
      NoBreaks(s[1..]);
      assert [s[0]] + s[1..] == s;
    }
  }

  lemma {:induction false} Base64RoundTrip(s: string)
    requires Bytes(s)
    ensures Decode64(Encode64(s)) == Some(s)
  {
    EncodedDigits(s);
    NoBreaks(Encode64(s));
    QuartetsBack(s);
  }

  // ---------- Hex ----------

  function HexDigit(n: nat): char
    requires n < 16
  {
    if n < 10 then ('0' as int + n) as char else ('a' as int + n - 10) as char
  }

  function Hex(s: string): string
    requires Bytes(s)
  {
    if s == "" then "" else [HexDigit(s[0] as int / 16), HexDigit(s[0] as int % 16)] + Hex(s[1..])
  }

  lemma {:induction false} HexShape(s: string)
    requires Bytes(s)
    ensures |Hex(s)| == 2 * |s| && '.' !in Hex(s)
  {
    if s == "" {
    } else {
      HexShape(s[1..]);
    }
  }

  lemma {:induction false} HexInjective(s: string, t: string)
    requires Bytes(s) && Bytes(t) && Hex(s) == Hex(t)
    ensures s == t
  {
    HexShape(s);
    HexShape(t);
    if s == "" {
    } else {
      assert Hex(s)[2..] == Hex(s[1..]) && Hex(t)[2..] == Hex(t[1..]);
      HexInjective(s[1..], t[1..]);
      assert Hex(s)[0] == Hex(t)[0] && Hex(s)[1] == Hex(t)[1];
      assert s[0] as int == s[0] as int / 16 * 16 + s[0] as int % 16;
      assert t[0] as int == t[0] as int / 16 * 16 + t[0] as int % 16;
      assert s == [s[0]] + s[1..] && t == [t[0]] + t[1..];
    }
  }

  // ---------- Primitives ----------

  /** `seal` takes a key, a nonce and the data; `open` a key and what was sealed. */
  datatype Primitives = Primitives(sha256: string -> string, hmac: (string, string) -> string,
                                   seal: (string, string, string) -> string, open: (string, string) -> Option<string>)

  ghost predicate Ideal(p: Primitives) {
    && (forall a :: Bytes(p.sha256(a)) && |p.sha256(a)| >= 4)
    && (forall a, b :: p.sha256(a) == p.sha256(b) ==> a == b)
    && (forall k, m :: Bytes(p.hmac(k, m)) && p.hmac(k, m) != "")
    && (forall k, m, k', m' :: p.hmac(k, m) == p.hmac(k', m') ==> k == k' && m == m')
    && (forall k, n, d :: Bytes(p.seal(k, n, d)) && p.seal(k, n, d) != "" && p.open(k, p.seal(k, n, d)) == Some(d))
  }

  // ---------- Keys ----------

  datatype Purpose = SAML | OIDC | Missing

  function Label(purpose: Purpose): string {
    match purpose
    case SAML => "saml"
    case OIDC => "oidc"
    case Missing => ""
  }

  datatype Use = HMACUse | AESUse

  function UseLabel(use: Use): string {
    if use.HMACUse? then "hmac:" else "aes:"
  }

  function DerivationInput(key: string, use: Use, purpose: Purpose): string {
    key + UseLabel(use) + Label(purpose)
  }

  function DeriveSubkey(p: Primitives, key: string, use: Use, purpose: Purpose): string {
    p.sha256(DerivationInput(key, use, purpose))
  }

  datatype Cookie = Disabled | Signer(hmacKey: string, kid: string, aesKey: string)

  datatype Error = PurposeRequired | KeyLength | SigningDisabled | Malformed | UnknownKeyID | BadSignature | BadPayload

  function NewSignedCookie(p: Primitives, key: Option<string>, purpose: Purpose): Result<Cookie, Error>
    requires Ideal(p)
  {
    if purpose.Missing? then Err(PurposeRequired)
    else match key
      case None => Ok(Disabled)
      case Some(k) =>
        if |k| != 32 then Err(KeyLength)
        else Ok(Signer(DeriveSubkey(p, k, HMACUse, purpose), Hex(p.sha256(k)[..4]),
                       DeriveSubkey(p, k, AESUse, purpose)))
  }

  /** The four derivation inputs of one root key are pairwise distinct, and those of two
      root keys never meet. */
  lemma {:induction false} DerivationInputsDistinct(k: string, u: Use, m: Purpose, k': string, u': Use, m': Purpose)
    requires |k| == 32 && |k'| == 32 && !m.Missing? && !m'.Missing?
    requires DerivationInput(k, u, m) == DerivationInput(k', u', m')
    ensures k == k' && u == u' && m == m'
  {
    var (a, b) := (DerivationInput(k, u, m), DerivationInput(k', u', m'));
    assert a == k + (UseLabel(u) + Label(m)) && b == k' + (UseLabel(u') + Label(m'));
    assert a[..32] == k && b[..32] == k' && a[32..] == UseLabel(u) + Label(m) && b[32..] == UseLabel(u') + Label(m');
    assert |a[32..]| == |UseLabel(u)| + 4 && |b[32..]| == |UseLabel(u')| + 4;
    assert a[32..][|UseLabel(u)|] == Label(m)[0] && b[32..][|UseLabel(u')|] == Label(m')[0];
  }

  // ---------- Encoding and decoding ----------

  function Signature(p: Primitives, sc: Cookie, signed: string): string
    requires Ideal(p) && sc.Signer?
  {
    Hex(p.hmac(sc.hmacKey, signed))
  }

  function Encode(p: Primitives, sc: Cookie, nonce: string, data: string): Result<string, Error>
    requires Ideal(p)
  {
    if sc.Disabled? then Err(SigningDisabled)
    else
      var signed := sc.kid + "." + Encode64(p.seal(sc.aesKey, nonce, data));
      Ok(signed + "." + Signature(p, sc, signed))
  }

  function Decode(p: Primitives, sc: Cookie, raw: string): Result<string, Error>
    requires Ideal(p)
  {
    if sc.Disabled? then Err(SigningDisabled)
    else
      var parts := Split(raw, '.');
      if |parts| != 3 || parts[0] == "" || parts[1] == "" || parts[2] == "" then Err(Malformed)
      else if parts[0] != sc.kid then Err(UnknownKeyID)
      else if parts[2] != Signature(p, sc, parts[0] + "." + parts[1]) then Err(BadSignature)
      else
        var data := Decode64(parts[1]);
        if data.None? then Err(BadPayload)
        else
          var plain := p.open(sc.aesKey, data.value);
          if plain.None? then Err(BadPayload) else Ok(plain.value)
  }

  predicate Enabled(sc: Cookie) { sc.Signer? && sc.kid != "" && '.' !in sc.kid }

  /** Every signer the constructor builds is usable. */
  lemma {:induction false} NewSignerEnabled(p: Primitives, key: string, purpose: Purpose)
    requires Ideal(p) && |key| == 32 && !purpose.Missing?
    ensures NewSignedCookie(p, Some(key), purpose).Ok? && Enabled(NewSignedCookie(p, Some(key), purpose).value)
  {
    var prefix := p.sha256(key)[..4];
    assert Bytes(prefix);
    HexShape(prefix);
  }

  /** Which signers can be had, and that without a key nothing is signed and nothing accepted. */
  lemma {:induction false} SignerOrNothing(p: Primitives, key: Option<string>, purpose: Purpose, nonce: string,
                                           data: string, raw: string)
    requires Ideal(p)
    ensures NewSignedCookie(p, key, purpose).Ok? <==> !purpose.Missing? && (key.None? || |key.value| == 32)
    ensures NewSignedCookie(p, key, purpose).Ok? ==> (NewSignedCookie(p, key, purpose).value.Disabled? <==> key.None?)
    ensures key.None? && !purpose.Missing? ==>
              var sc := NewSignedCookie(p, key, purpose).value;
              Encode(p, sc, nonce, data) == Err(SigningDisabled) && Decode(p, sc, raw) == Err(SigningDisabled)
  {
    hide Encode64, Decode64, Split, Hex;
  }

  lemma {:induction false} ThreeParts(a: string, b: string, c: string)
    requires '.' !in a && '.' !in b && '.' !in c
    ensures Split(a + "." + b + "." + c, '.') == [a, b, c]
  {
    assert a + "." + b + "." + c == a + ['.'] + (b + ['.'] + c);
    SplitFirst(a, b + ['.'] + c, '.');
    SplitFirst(b, c, '.');
    SplitSeparatorFree(c, '.');
  }

  lemma {:induction false} SignatureShape(p: Primitives, sc: Cookie, signed: string)
    requires Ideal(p) && sc.Signer?
    ensures Signature(p, sc, signed) != "" && '.' !in Signature(p, sc, signed)
  {
    HexShape(p.hmac(sc.hmacKey, signed));
  }

  /** Decoding gives back every byte string that was encoded, whatever the nonce. */
  lemma {:induction false} CookieRoundTrip(p: Primitives, sc: Cookie, nonce: string, data: string)
    requires Ideal(p) && Enabled(sc)
    ensures Encode(p, sc, nonce, data).Ok? && Decode(p, sc, Encode(p, sc, nonce, data).value) == Ok(data)
  {
    var sealed := p.seal(sc.aesKey, nonce, data);
    assert Bytes(sealed) && sealed != "" && p.open(sc.aesKey, sealed) == Some(data);
    hide Encode64, Decode64, Hex, Split;
    var payload := Encode64(sealed);
    EncodedDigits(sealed);
    Base64RoundTrip(sealed);
    SignatureShape(p, sc, sc.kid + "." + payload);
    ThreeParts(sc.kid, payload, Signature(p, sc, sc.kid + "." + payload));
  }

  /** A cookie is accepted if and only if it is this signer's key id, a non-empty payload
      without '.', and this signer's signature over the two, with a payload that opens. */
  lemma {:induction false} AcceptedIff(p: Primitives, sc: Cookie, raw: string)
    requires Ideal(p) && Enabled(sc)
    ensures Decode(p, sc, raw).Ok?
            <==> exists payload ::
                   && payload != "" && '.' !in payload
                   && raw == sc.kid + "." + payload + "." + Signature(p, sc, sc.kid + "." + payload)
                   && Decode64(payload).Some? && p.open(sc.aesKey, Decode64(payload).value).Some?
    ensures Decode(p, sc, raw).Ok? ==>
              exists payload :: && raw == sc.kid + "." + payload + "." + Signature(p, sc, sc.kid + "." + payload)
                                && Decode64(payload).Some?
                                && p.open(sc.aesKey, Decode64(payload).value) == Some(Decode(p, sc, raw).value)
  {
    hide Ideal, Decode64, Split, Hex;
    if Decode(p, sc, raw).Ok? {
      var parts := Split(raw, '.');
      SplitPartsSeparatorFree(raw, '.');
      JoinParts(raw);
    }
    forall payload | payload != "" && '.' !in payload
      && raw == sc.kid + "." + payload + "." + Signature(p, sc, sc.kid + "." + payload)
      ensures Split(raw, '.') == [sc.kid, payload, Signature(p, sc, sc.kid + "." + payload)]
              && Signature(p, sc, sc.kid + "." + payload) != ""
    {
      SignatureShape(p, sc, sc.kid + "." + payload);
      ThreeParts(sc.kid, payload, Signature(p, sc, sc.kid + "." + payload));
    }
  }

  function JoinAll(parts: seq<string>): string
    requires |parts| > 0
  {
    if |parts| == 1 then parts[0] else parts[0] + "." + JoinAll(parts[1..])
  }

  lemma {:induction false} JoinPrepended(c: char, rest: seq<string>)
    requires |rest| > 0
    ensures JoinAll([[c] + rest[0]] + rest[1..]) == [c] + JoinAll(rest)
  {
    var parts := [[c] + rest[0]] + rest[1..];
    if |rest| > 1 {
      assert parts[1..] == rest[1..];
      assert [c] + rest[0] + "." + JoinAll(rest[1..]) == [c] + (rest[0] + "." + JoinAll(rest[1..]));
    }
  }

  lemma {:induction false} JoinEmptyFirst(rest: seq<string>)
    requires |rest| > 0
    ensures JoinAll([""] + rest) == "." + JoinAll(rest)
  {
    assert ([""] + rest)[1..] == rest;
  }

  lemma {:induction false} JoinSplit(raw: string)
    ensures JoinAll(Split(raw, '.')) == raw
  {
    hide JoinAll;
    if raw == "" {
      JoinSingle("");
    } else {
      JoinSplit(raw[1..]);
      var rest := Split(raw[1..], '.');
      assert [raw[0]] + raw[1..] == raw;
      if raw[0] == '.' {
        JoinEmptyFirst(rest);
      } else {
        JoinPrepended(raw[0], rest);
      }
    }
  }

  lemma {:induction false} JoinSingle(s: string)
    ensures JoinAll([s]) == s
  {
  }

  lemma {:induction false} JoinParts(raw: string)
    requires |Split(raw, '.')| == 3
    ensures raw == Split(raw, '.')[0] + "." + Split(raw, '.')[1] + "." + Split(raw, '.')[2]
  {
    var parts := Split(raw, '.');
    JoinSplit(raw);
    assert parts[1..][1..] == [parts[2]];
    assert JoinAll(parts[1..]) == parts[1] + "." + parts[2];
    assert parts[0] + "." + (parts[1] + "." + parts[2]) == parts[0] + "." + parts[1] + "." + parts[2];
  }

  /** A cookie made for one purpose, or under one root key, is refused by every signer of
      another purpose or root key. */
  lemma {:induction false} OtherSignersRefuse(p: Primitives, key: string, purpose: Purpose, key': string,
                                              purpose': Purpose, nonce: string, data: string)
    requires Ideal(p) && |key| == 32 && |key'| == 32 && !purpose.Missing? && !purpose'.Missing?
    requires key != key' || purpose != purpose'
    ensures var made := Encode(p, NewSignedCookie(p, Some(key), purpose).value, nonce, data);
            made.Ok? && Decode(p, NewSignedCookie(p, Some(key'), purpose').value, made.value) in {Err(UnknownKeyID),
                Err(BadSignature)}
  {
    hide Encode64, Decode64, Split;
    NewSignerEnabled(p, key, purpose);
    NewSignerEnabled(p, key', purpose');
    var sc := NewSignedCookie(p, Some(key), purpose).value;
    var other := NewSignedCookie(p, Some(key'), purpose').value;
    var sealed := p.seal(sc.aesKey, nonce, data);
    var payload := Encode64(sealed);
    EncodedDigits(sealed);
    var signed := sc.kid + "." + payload;
    SignatureShape(p, sc, signed);
    ThreeParts(sc.kid, payload, Signature(p, sc, signed));
    if Signature(p, sc, signed) == Signature(p, other, signed) {
      HexInjective(p.hmac(sc.hmacKey, signed), p.hmac(other.hmacKey, signed));
      assert p.hmac(sc.hmacKey, signed) == p.hmac(other.hmacKey, signed);
      assert sc.hmacKey == other.hmacKey;
      DerivationInputsDistinct(key, HMACUse, purpose, key', HMACUse, purpose');
    }
  }
}
