/** The HTTP-Redirect binding as internal/saml/slo.go reads it: one pass over the raw
    query, and the octet string the signature is checked over (section 3.4.4.1 of the
    SAML 2.0 Bindings). A char stands for one byte. */
module RedirectQuery {
  import opened Wrappers
  import opened Strings

  // ---------- url.QueryUnescape and url.QueryEscape ----------

  function HexValue(c: char): Option<int> {
    if '0' <= c <= '9' then Some(c as int - '0' as int)
    else if 'a' <= c <= 'f' then Some(c as int - 'a' as int + 10)
    else if 'A' <= c <= 'F' then Some(c as int - 'A' as int + 10)
    else None
  }

  lemma {:induction false} HexValueBounded(c: char)
    requires HexValue(c).Some?
    ensures 0 <= HexValue(c).value < 16
  {
  }

  function Unescape(s: string): Option<string> {
    if s == "" then Some("")
    else if s[0] == '%' then
      if |s| < 3 || HexValue(s[1]).None? || HexValue(s[2]).None? then None
      else
        HexValueBounded(s[1]); HexValueBounded(s[2]);
        var rest := Unescape(s[3..]);
        if rest.None? then None else Some([(16 * HexValue(s[1]).value + HexValue(s[2]).value) as char] + rest.value)
    else
      var rest := Unescape(s[1..]);
      if rest.None? then None else Some([if s[0] == '+' then ' ' else s[0]] + rest.value)
  }

  predicate Unreserved(c: char) {
    'a' <= c <= 'z' || 'A' <= c <= 'Z' || '0' <= c <= '9' || c in "-_.~"
  }

  function HexDigit(n: nat): (c: char)
    requires n < 16
    ensures HexValue(c) == Some(n) && c !in "&=%+"
  {
    if n < 10 then ('0' as int + n) as char else ('A' as int + n - 10) as char
  }

  function Escape(s: string): string
    requires Bytes(s)
  {
    if s == "" then ""
    else (if Unreserved(s[0]) then [s[0]]
          else if s[0] == ' ' then "+"
          else ['%', HexDigit(s[0] as int / 16), HexDigit(s[0] as int % 16)]) + Escape(s[1..])
  }

  lemma {:induction false} EscapeRoundTrip(s: string)
    requires Bytes(s)
    ensures Unescape(Escape(s)) == Some(s)
    ensures '&' !in Escape(s) && '=' !in Escape(s)
  {
    if s == "" {
    } else {
      EscapeRoundTrip(s[1..]);
      var e := Escape(s);
      if Unreserved(s[0]) || s[0] == ' ' {
        assert e[1..] == Escape(s[1..]);
      } else {
        assert e[3..] == Escape(s[1..]);
        assert s[0] as int == 16 * (s[0] as int / 16) + s[0] as int % 16;
      }
      assert [s[0]] + s[1..] == s;
    }
  }

  lemma {:induction false} PlainUnescape(s: string)
    requires '%' !in s && '+' !in s
    ensures Unescape(s) == Some(s)
  {
    if s == "" {
    } else {
      PlainUnescape(s[1..]);
      assert [s[0]] + s[1..] == s;
    }
  }

  // ---------- Reading the query ----------

  datatype Params = Params(samlRequestRaw: string, relayStateRaw: string, hasRelayState: bool, sigAlgRaw: string,
                           hasSigAlg: bool, signatureRaw: string, hasSignature: bool, samlRequest: string,
                           relayState: string)

  const NO_PARAMS := Params("", "", false, "", false, "", false, "", "")

  datatype QueryError = UndecodableName(raw: string) | NonCanonical(name: Name, raw: string) | Duplicate(name: Name)
                      | UndecodableValue(name: Name)

  /** The security-relevant names; every other parameter is left alone. */
  datatype Name = SAMLRequest | SAMLResponse | RelayState | SigAlg | Signature

  function Spelling(n: Name): string {
    match n
    case SAMLRequest => "SAMLRequest"
    case SAMLResponse => "SAMLResponse"
    case RelayState => "RelayState"
    case SigAlg => "SigAlg"
    case Signature => "Signature"
  }

  function Canonical(key: string): Option<Name> {
    if key == Spelling(SAMLRequest) then Some(SAMLRequest)
    else if key == Spelling(SAMLResponse) then Some(SAMLResponse)
    else if key == Spelling(RelayState) then Some(RelayState)
    else if key == Spelling(SigAlg) then Some(SigAlg)
    else if key == Spelling(Signature) then Some(Signature)
    else None
  }

  lemma {:induction false} CanonicalIsSpelling(key: string, n: Name)
    ensures Canonical(key) == Some(n) <==> key == Spelling(n)
  {
  }

  lemma {:induction false} SpellingPlain(n: Name)
    ensures Spelling(n) != "" && '%' !in Spelling(n) && '+' !in Spelling(n) && '=' !in Spelling(n)
            && '&' !in Spelling(n)
  {
  }

  function RawKey(pair: string): string { Cut(pair, '=').0 }

  function RawValue(pair: string): string { Cut(pair, '=').1 }

  predicate Names(pair: string, n: Name) {
    pair != "" && Unescape(RawKey(pair)) == Some(Spelling(n))
  }

  predicate Spells(pair: string, n: Name) {
    pair != "" && RawKey(pair) == Spelling(n)
  }

  /** What is wrong with pair `i`, in the order the checks are made. */
  ghost function Fault(pairs: seq<string>, i: nat): Option<QueryError>
    requires i < |pairs|
  {
    var raw := RawKey(pairs[i]);
    if pairs[i] == "" then None
    else match Unescape(raw)
      case None => Some(UndecodableName(raw))
      case Some(key) =>
        match Canonical(key)
        case None => None
        case Some(n) =>
          if raw != key then Some(NonCanonical(n, raw))
          else if exists j :: 0 <= j < i && Names(pairs[j], n) then Some(Duplicate(n))
          else if Unescape(RawValue(pairs[i])).None? then Some(UndecodableValue(n))
          else None
  }

  /** The first fault of the query, if it has one. */
  ghost function FirstFault(pairs: seq<string>, n: nat): Option<QueryError>
    requires n <= |pairs|
  {
    if n == 0 then None
    else if FirstFault(pairs, n - 1).Some? then FirstFault(pairs, n - 1)
    else Fault(pairs, n - 1)
  }

  /** The raw value of the pair spelled as `n`. */
  function Lookup(pairs: seq<string>, n: Name): Option<string> {
    if pairs == [] then None
    else
      var last := pairs[|pairs| - 1];
      if Spells(last, n) then Some(RawValue(last)) else Lookup(pairs[..|pairs| - 1], n)
  }

  function Decoded(raw: Option<string>): string {
    if raw.None? then "" else Unescape(raw.value).GetOr("")
  }

  function ParamsOf(request: Option<string>, relay: Option<string>, alg: Option<string>, sig: Option<string>): Params {
    Params(request.GetOr(""), relay.GetOr(""), relay.Some?, alg.GetOr(""), alg.Some?, sig.GetOr(""), sig.Some?,
           Decoded(request), Decoded(relay))
  }

  function Fields(pairs: seq<string>): Params {
    ParamsOf(Lookup(pairs, SAMLRequest), Lookup(pairs, RelayState), Lookup(pairs, SigAlg), Lookup(pairs, Signature))
  }

  /** The query read at once: its first fault, or the value of each parameter. */
  ghost function Extract(rawQuery: string): Result<Params, QueryError> {
    var pairs := Split(rawQuery, '&');
    match FirstFault(pairs, |pairs|)
    case Some(e) => Err(e)
    case None => Ok(Fields(pairs))
  }

  lemma {:induction false} FirstFaultStays(pairs: seq<string>, i: nat, n: nat)
    requires i <= n <= |pairs| && FirstFault(pairs, i).Some?
    ensures FirstFault(pairs, n) == FirstFault(pairs, i)
    decreases n
  {
    hide Fault;
    if i == n {
    } else {
      FirstFaultStays(pairs, i, n - 1);
    }
  }

  lemma {:induction false} LookupNext(pairs: seq<string>, i: nat, n: Name)
    requires i < |pairs|
    ensures Lookup(pairs[..i + 1], n) == if Spells(pairs[i], n) then Some(RawValue(pairs[i])) else Lookup(pairs[..i], n)
  {
    hide Spells;
    assert pairs[..i + 1][..i] == pairs[..i];
  }

  lemma {:induction false} FieldsNext(pairs: seq<string>, i: nat)
    requires i < |pairs|
    ensures var value := Some(RawValue(pairs[i]));
            Fields(pairs[..i + 1])
            == ParamsOf(if Spells(pairs[i], SAMLRequest) then value else Lookup(pairs[..i], SAMLRequest),
                        if Spells(pairs[i], RelayState) then value else Lookup(pairs[..i], RelayState),
                        if Spells(pairs[i], SigAlg) then value else Lookup(pairs[..i], SigAlg),
                        if Spells(pairs[i], Signature) then value else Lookup(pairs[..i], Signature))
  {
    hide Spells, Lookup;
    LookupNext(pairs, i, SAMLRequest);
    LookupNext(pairs, i, RelayState);
    LookupNext(pairs, i, SigAlg);
    LookupNext(pairs, i, Signature);
  }

  /** A key spelled like a canonical name decodes to it, so a pair that decodes to some
      other name, or to none, spells no canonical one. */
  lemma {:induction false} SpellsNames(pair: string, n: Name)
    requires Spells(pair, n)
    ensures Names(pair, n)
  {
    hide Spelling;
    SpellingPlain(n);
    PlainUnescape(Spelling(n));
  }

  /** What the next pair adds to the parameters. */
  lemma {:induction false} FieldsSkip(pairs: seq<string>, i: nat)
    requires i < |pairs|
             && (pairs[i] == ""
                 || (Unescape(RawKey(pairs[i])).Some? && Canonical(Unescape(RawKey(pairs[i])).value).None?))
    ensures Fields(pairs[..i + 1]) == Fields(pairs[..i])
    ensures forall n :: !Names(pairs[i], n)
  {
    hide Spelling, Canonical, Unescape, Lookup;
    FieldsNext(pairs, i);
    forall n: Name ensures !Names(pairs[i], n) && !Spells(pairs[i], n) {
      if Spells(pairs[i], n) { SpellsNames(pairs[i], n); }
      if Names(pairs[i], n) { CanonicalIsSpelling(Unescape(RawKey(pairs[i])).value, n); }
    }
  }

  lemma {:induction false} FieldsTake(pairs: seq<string>, i: nat, n: Name)
    requires i < |pairs| && Spells(pairs[i], n)
    ensures forall m :: Names(pairs[i], m) <==> m == n
    ensures forall m :: Spells(pairs[i], m) <==> m == n
  {
    hide Spelling, Canonical;
    SpellsNames(pairs[i], n);
    forall m: Name ensures (Names(pairs[i], m) <==> m == n) && (Spells(pairs[i], m) <==> m == n) {
      CanonicalIsSpelling(Spelling(n), n);
      CanonicalIsSpelling(Spelling(n), m);
    }
  }

  /** extractRedirectParams: the single pass, with the names seen so far. */
  method ExtractRedirectParams(rawQuery: string) returns (r: Result<Params, QueryError>)
    ensures r == Extract(rawQuery)
  {
    hide Spelling, Canonical, Unescape, Cut, Lookup, Split;
    var p := NO_PARAMS;
    var seen: set<Name> := {};
    var pairs := Split(rawQuery, '&');
    FieldsStart(pairs);
    for i := 0 to |pairs|
      invariant FirstFault(pairs, i).None?
      invariant p == Fields(pairs[..i])
      invariant forall n :: n in seen <==> exists j :: 0 <= j < i && Names(pairs[j], n)
    {
      var pair := pairs[i];
      if pair == "" {
        FieldsSkip(pairs, i);
        continue;
      }
      var (rawKey, rawVal) := Cut(pair, '=');
      var decodedKey := Unescape(rawKey);
      if decodedKey.None? {
        FirstFaultStays(pairs, i + 1, |pairs|);
        return Err(UndecodableName(rawKey));
      }
      if Canonical(decodedKey.value).None? {
        FieldsSkip(pairs, i);
        continue;
      }
      var n := Canonical(decodedKey.value).value;
      CanonicalIsSpelling(decodedKey.value, n);
      if rawKey != decodedKey.value {
        FirstFaultStays(pairs, i + 1, |pairs|);
        return Err(NonCanonical(n, rawKey));
      }
      if n in seen {
        FirstFaultStays(pairs, i + 1, |pairs|);
        return Err(Duplicate(n));
      }
      var decodedVal := Unescape(rawVal);
      if decodedVal.None? {
        FirstFaultStays(pairs, i + 1, |pairs|);
        return Err(UndecodableValue(n));
      }
      FieldsNext(pairs, i);
      FieldsTake(pairs, i, n);
      seen := seen + {n};
      match n {
        case SAMLRequest => p := p.(samlRequestRaw := rawVal, samlRequest := decodedVal.value);
        case SAMLResponse =>
        case RelayState => p := p.(relayStateRaw := rawVal, relayState := decodedVal.value, hasRelayState := true);
        case SigAlg => p := p.(sigAlgRaw := rawVal, hasSigAlg := true);
        case Signature => p := p.(signatureRaw := rawVal, hasSignature := true);
      }
    }
    assert pairs[..|pairs|] == pairs;
    return Ok(p);
  }

  lemma {:induction false} FieldsStart(pairs: seq<string>)
    ensures Fields(pairs[..0]) == NO_PARAMS
  {
  }

  // ---------- What acceptance means ----------

  const SECURITY_NAMES: set<string> := {"SAMLRequest", "SAMLResponse", "RelayState", "SigAlg", "Signature"}

  /** The pair decodes to the name. */
  predicate DecodesTo(pair: string, name: string) { pair != "" && Unescape(Cut(pair, '=').0) == Some(name) }

  /** Nothing is wrong with pair `i`: its name decodes, and a security-relevant name is spelled
      literally, has a value that decodes, and was not given before. */
  ghost predicate PairAccepted(pairs: seq<string>, i: nat)
    requires i < |pairs|
  {
    pairs[i] == "" ||
    (&& Unescape(Cut(pairs[i], '=').0).Some?
     && forall name :: name in SECURITY_NAMES && DecodesTo(pairs[i], name) ==>
                         && Cut(pairs[i], '=').0 == name && Unescape(Cut(pairs[i], '=').1).Some?
                         && forall j :: 0 <= j < i ==> !DecodesTo(pairs[j], name))
  }

  lemma {:induction false} SecurityNames(name: string)
    ensures name in SECURITY_NAMES <==> Canonical(name).Some?
    ensures forall n :: Canonical(name) == Some(n) ==> Spelling(n) == name
  {
  }

  lemma {:induction false} FaultFreeIff(pairs: seq<string>, i: nat)
    requires i < |pairs|
    ensures Fault(pairs, i).None? <==> PairAccepted(pairs, i)
  {
    hide Spelling, Canonical, Unescape, Cut, SECURITY_NAMES;
    if pairs[i] != "" && Unescape(RawKey(pairs[i])).Some? {
      var name := Unescape(RawKey(pairs[i])).value;
      SecurityNames(name);
      if Canonical(name).Some? {
        assert DecodesTo(pairs[i], name);
        assert forall j :: 0 <= j < i ==> (DecodesTo(pairs[j], name) <==> Names(pairs[j], Canonical(name).value));
      }
    }
  }

  lemma {:induction false} NoFaultSoFar(pairs: seq<string>, n: nat)
    requires n <= |pairs| && forall i :: 0 <= i < n ==> Fault(pairs, i).None?
    ensures FirstFault(pairs, n).None?
    decreases n
  {
    hide Fault;
    if n == 0 {
    } else {
      NoFaultSoFar(pairs, n - 1);
    }
  }

  ghost predicate AllAccepted(pairs: seq<string>) {
    forall i :: 0 <= i < |pairs| ==> PairAccepted(pairs, i)
  }

  lemma {:induction false} FaultFreeQueryIff(pairs: seq<string>)
    ensures FirstFault(pairs, |pairs|).None? <==> AllAccepted(pairs)
  {
    hide Fault, PairAccepted, FirstFault;
    if FirstFault(pairs, |pairs|).None? {
      forall i | 0 <= i < |pairs| ensures PairAccepted(pairs, i) {
        AcceptedIsFaultFree(pairs, |pairs|, i);
        FaultFreeIff(pairs, i);
      }
    }
    if AllAccepted(pairs) {
      forall i | 0 <= i < |pairs| ensures Fault(pairs, i).None? { FaultFreeIff(pairs, i); }
      NoFaultSoFar(pairs, |pairs|);
    }
  }

  /** A query is accepted exactly when nothing is wrong with any of its pairs; other parameters
      are left alone. */
  lemma {:induction false} QueryAcceptedIff(rawQuery: string)
    ensures Extract(rawQuery).Ok? <==> AllAccepted(Split(rawQuery, '&'))
  {
    hide AllAccepted, FirstFault;
    FaultFreeQueryIff(Split(rawQuery, '&'));
  }

  lemma {:induction false} AcceptedIsFaultFree(pairs: seq<string>, n: nat, i: nat)
    requires i < n <= |pairs| && FirstFault(pairs, n).None?
    ensures Fault(pairs, i).None?
    decreases n
  {
    hide Fault;
    if i == n - 1 {
    } else {
      AcceptedIsFaultFree(pairs, n - 1, i);
    }
  }

  lemma {:induction false} NamedPairOk(rawQuery: string, n: Name, i: nat)
    requires Extract(rawQuery).Ok? && i < |Split(rawQuery, '&')| && Names(Split(rawQuery, '&')[i], n)
    ensures var pairs := Split(rawQuery, '&');
            && Spells(pairs[i], n) && Unescape(RawValue(pairs[i])).Some?
            && (forall j :: 0 <= j < i ==> !Names(pairs[j], n))
            && '&' !in RawValue(pairs[i])
  {
    hide Spelling, Canonical, Split, Unescape, Cut;
    var pairs := Split(rawQuery, '&');
    AcceptedIsFaultFree(pairs, |pairs|, i);
    CanonicalIsSpelling(Spelling(n), n);
    SplitPartsSeparatorFree(rawQuery, '&');
    CutAfterFree(pairs[i], '=', '&');
  }

  /** In an accepted query at most one pair decodes to a security-relevant name, and that
      pair spells the name literally: no encoded spelling, no second copy. */
  lemma {:induction false} AcceptedNamesAreUnique(rawQuery: string, n: Name, i: nat, j: nat)
    requires Extract(rawQuery).Ok?
    requires var pairs := Split(rawQuery, '&'); i < |pairs| && j < |pairs| && Names(pairs[i], n) && Names(pairs[j], n)
    ensures i == j && Spells(Split(rawQuery, '&')[i], n)
  {
    hide Names, Extract, Spells, Split;
    NamedPairOk(rawQuery, n, i);
    NamedPairOk(rawQuery, n, j);
  }

  lemma {:induction false} LookupFinds(pairs: seq<string>, n: Name)
    ensures Lookup(pairs, n).Some?
            ==> exists i :: 0 <= i < |pairs| && Spells(pairs[i], n) && RawValue(pairs[i]) == Lookup(pairs, n).value
    decreases |pairs|
  {
    hide Spells, Cut;
    if pairs == [] {
    } else {
      var rest := pairs[..|pairs| - 1];
      LookupFinds(rest, n);
      assert forall i :: 0 <= i < |rest| ==> rest[i] == pairs[i];
    }
  }

  /** Every accepted query that carries a message carries it in exactly one pair, and that
      pair's value is the one whose raw form is signed and whose decoded form is parsed. */
  lemma {:induction false} ExactlyOneMessage(rawQuery: string) returns (i: nat)
    requires Extract(rawQuery).Ok? && Extract(rawQuery).value.samlRequest != ""
    ensures var pairs := Split(rawQuery, '&'); var p := Extract(rawQuery).value;
            && i < |pairs| && Names(pairs[i], SAMLRequest) && Spells(pairs[i], SAMLRequest)
            && p.samlRequestRaw == RawValue(pairs[i]) && Unescape(RawValue(pairs[i])) == Some(p.samlRequest)
            && (forall j :: 0 <= j < |pairs| && Names(pairs[j], SAMLRequest) ==> j == i)
  {
    hide Spells, Names, Split, Cut, Lookup, FirstFault;
    var pairs := Split(rawQuery, '&');
    LookupFinds(pairs, SAMLRequest);
    i :| 0 <= i < |pairs| && Spells(pairs[i], SAMLRequest) && RawValue(pairs[i]) == Lookup(pairs, SAMLRequest).value;
    SpellsNames(pairs[i], SAMLRequest);
    NamedPairOk(rawQuery, SAMLRequest, i);
    forall j | 0 <= j < |pairs| && Names(pairs[j], SAMLRequest) ensures j == i {
      AcceptedNamesAreUnique(rawQuery, SAMLRequest, i, j);
    }
  }

  // ---------- The signed octet string ----------

  function Pair(n: Name, value: string): string { Spelling(n) + "=" + value }

  function SignedOctets(p: Params): string {
    Pair(SAMLRequest, p.samlRequestRaw) + (if p.hasRelayState then "&" + Pair(RelayState, p.relayStateRaw) else "")
    + "&" + Pair(SigAlg, p.sigAlgRaw)
  }

  /** A query as a service provider following the binding writes it, from values already
      encoded; `relay` and `signature` may be absent. */
  function WrittenQuery(request: string, relay: Option<string>, alg: string, signature: Option<string>): string {
    Pair(SAMLRequest, request) + (if relay.Some? then "&" + Pair(RelayState, relay.value) else "") + "&"
      + Pair(SigAlg, alg)
    + (if signature.Some? then "&" + Pair(Signature, signature.value) else "")
  }

  predicate Encoded(s: string) { '&' !in s && Unescape(s).Some? }

  predicate EncodedOption(s: Option<string>) { s.Some? ==> Encoded(s.value) }

  function PairOption(n: Name, value: Option<string>): seq<string> {
    if value.Some? then [Pair(n, value.value)] else []
  }

  function WrittenPairs(request: string, relay: Option<string>, alg: string, signature: Option<string>): seq<string> {
    [Pair(SAMLRequest, request)] + PairOption(RelayState, relay) + [Pair(SigAlg, alg)]
      + PairOption(Signature, signature)
  }

  /** Pairs joined by '&'. */
  function Join(pairs: seq<string>): string {
    if |pairs| == 0 then "" else if |pairs| == 1 then pairs[0] else pairs[0] + "&" + Join(pairs[1..])
  }

  lemma {:induction false} SplitJoin(pairs: seq<string>)
    requires |pairs| > 0 && forall i :: 0 <= i < |pairs| ==> '&' !in pairs[i]
    ensures Split(Join(pairs), '&') == pairs
  {
    if |pairs| == 1 {
      SplitSeparatorFree(pairs[0], '&');
      assert pairs == [pairs[0]];
    } else {
      SplitJoin(pairs[1..]);
      assert Join(pairs) == pairs[0] + ['&'] + Join(pairs[1..]);
      SplitFirst(pairs[0], Join(pairs[1..]), '&');
      assert pairs == [pairs[0]] + pairs[1..];
    }
  }

  lemma {:induction false} JoinTail(alg: string, signature: Option<string>)
    ensures Join([Pair(SigAlg, alg)] + PairOption(Signature, signature))
            == Pair(SigAlg, alg) + (if signature.Some? then "&" + Pair(Signature, signature.value) else "")
  {
    hide Pair;
    var tail := [Pair(SigAlg, alg)] + PairOption(Signature, signature);
    if signature.Some? {
      assert tail[1..] == [Pair(Signature, signature.value)];
    }
  }

  lemma {:induction false} WrittenIsJoined(request: string, relay: Option<string>, alg: string,
                                           signature: Option<string>)
    ensures WrittenQuery(request, relay, alg, signature) == Join(WrittenPairs(request, relay, alg, signature))
  {
    hide Pair;
    var pairs := WrittenPairs(request, relay, alg, signature);
    JoinTail(alg, signature);
    var tail := [Pair(SigAlg, alg)] + PairOption(Signature, signature);
    if relay.Some? {
      assert pairs[1..] == [Pair(RelayState, relay.value)] + tail;
      assert pairs[1..][1..] == tail;
      assert Join(pairs[1..]) == Pair(RelayState, relay.value) + "&" + Join(tail);
    } else {
      assert pairs[1..] == tail;
    }
  }

  lemma {:induction false} PairParts(n: Name, value: string)
    ensures Spells(Pair(n, value), n) && Names(Pair(n, value), n) && RawValue(Pair(n, value)) == value
    ensures '&' !in value ==> '&' !in Pair(n, value)
  {
    hide Spelling;
    SpellingPlain(n);
    CutFirst(Spelling(n), value, '=');
    assert Spelling(n) + ['='] + value == Pair(n, value);
    PlainUnescape(Spelling(n));
  }

  lemma {:induction false} SpelledOnce(pair: string, n: Name, m: Name)
    requires Spells(pair, n) && m != n
    ensures !Spells(pair, m) && !Names(pair, m)
  {
    hide Spells, Names;
    FieldsTake([pair], 0, n);
  }

  /** Pairs spelling distinct names, with decodable values, are read without fault. */
  lemma {:induction false} SpelledPairsFaultFree(pairs: seq<string>, names: seq<Name>, n: nat)
    requires n <= |pairs| == |names|
    requires forall i :: 0 <= i < |pairs| ==> Spells(pairs[i], names[i]) && Unescape(RawValue(pairs[i])).Some?
    requires forall i, j :: 0 <= i < j < |names| ==> names[i] != names[j]
    ensures FirstFault(pairs, n).None?
  {
    hide Spelling, Canonical, Unescape, Cut;
    if n == 0 {
    } else {
      SpelledPairsFaultFree(pairs, names, n - 1);
      var name := names[n - 1];
      SpellsNames(pairs[n - 1], name);
      CanonicalIsSpelling(Spelling(name), name);
      forall j | 0 <= j < n - 1 ensures !Names(pairs[j], name) {
        SpelledOnce(pairs[j], names[j], name);
      }
    }
  }

  lemma {:induction false} LookupUnique(pairs: seq<string>, n: Name, i: nat)
    requires i < |pairs| && Spells(pairs[i], n) && forall j :: i < j < |pairs| ==> !Spells(pairs[j], n)
    ensures Lookup(pairs, n) == Some(RawValue(pairs[i]))
  {
    hide Spells, Cut;
    if i == |pairs| - 1 {
    } else {
      LookupUnique(pairs[..|pairs| - 1], n, i);
    }
  }

  lemma {:induction false} LookupAbsent(pairs: seq<string>, n: Name)
    requires forall j :: 0 <= j < |pairs| ==> !Spells(pairs[j], n)
    ensures Lookup(pairs, n).None?
    decreases |pairs|
  {
    hide Spells, Cut;
    if pairs == [] {
    } else {
      LookupAbsent(pairs[..|pairs| - 1], n);
    }
  }

  lemma {:induction false} WrittenFields(request: string, relay: Option<string>, alg: string, signature: Option<string>)
    ensures Fields(WrittenPairs(request, relay, alg, signature)) == ParamsOf(Some(request), relay, Some(alg), signature)
  {
    hide Pair, Spells, Names, Lookup, Cut, ParamsOf;
    var pairs := WrittenPairs(request, relay, alg, signature);
    forall n, v: string, m: Name | m != n ensures !Spells(Pair(n, v), m) {
      PairParts(n, v); SpelledOnce(Pair(n, v), n, m);
    }
    PairParts(SAMLRequest, request);
    PairParts(RelayState, relay.GetOr(""));
    PairParts(SigAlg, alg);
    PairParts(Signature, signature.GetOr(""));
    var a := if relay.Some? then 2 else 1;
    LookupUnique(pairs, SAMLRequest, 0);
    LookupUnique(pairs, SigAlg, a);
    if relay.Some? { LookupUnique(pairs, RelayState, 1); } else { LookupAbsent(pairs, RelayState); }
    if signature.Some? { LookupUnique(pairs, Signature, a + 1); } else { LookupAbsent(pairs, Signature); }
  }

  lemma {:induction false} WrittenPairsFaultFree(request: string, relay: Option<string>, alg: string,
                                                 signature: Option<string>)
    requires Encoded(request) && EncodedOption(relay) && Encoded(alg) && EncodedOption(signature)
    ensures var pairs := WrittenPairs(request, relay, alg, signature);
            FirstFault(pairs, |pairs|).None? && forall i :: 0 <= i < |pairs| ==> '&' !in pairs[i]
  {
    hide Pair, Spells, Names, Cut, Unescape, FirstFault, Fault;
    var pairs := WrittenPairs(request, relay, alg, signature);
    var names :=
      [SAMLRequest] + (if relay.Some? then [RelayState] else []) + [SigAlg]
        + (if signature.Some? then [Signature] else []);
    PairParts(SAMLRequest, request);
    PairParts(RelayState, relay.GetOr(""));
    PairParts(SigAlg, alg);
    PairParts(Signature, signature.GetOr(""));
    SpelledPairsFaultFree(pairs, names, |pairs|);
  }

  /** Every query written by the book, under any encoding of its values, is read back to
      exactly its values, and the octets the signature is checked over are the query up
      to "&Signature". */
  lemma {:induction false} ConformingQueryReadsBack(request: string, relay: Option<string>, alg: string,
                                                    signature: Option<string>)
    requires Encoded(request) && EncodedOption(relay) && Encoded(alg) && EncodedOption(signature)
    ensures Extract(WrittenQuery(request, relay, alg, signature))
            == Ok(ParamsOf(Some(request), relay, Some(alg), signature))
    ensures SignedOctets(ParamsOf(Some(request), relay, Some(alg), signature))
            == WrittenQuery(request, relay, alg, None)
  {
    hide Pair, Split, Join, FirstFault, Fields, WrittenPairs, Unescape;
    var pairs := WrittenPairs(request, relay, alg, signature);
    WrittenIsJoined(request, relay, alg, signature);
    WrittenPairsFaultFree(request, relay, alg, signature);
    assert |pairs| > 0 by { WrittenNonEmpty(request, relay, alg, signature); }
    SplitJoin(pairs);
    WrittenFields(request, relay, alg, signature);
  }

  lemma {:induction false} WrittenNonEmpty(request: string, relay: Option<string>, alg: string,
                                           signature: Option<string>)
    ensures |WrittenPairs(request, relay, alg, signature)| > 0
  {
  }

  /** The same from the plain values of a message: any bytes survive the trip. */
  lemma {:induction false} ServiceProviderRoundTrip(m: string, relay: string, alg: string, sig: string)
    requires Bytes(m) && Bytes(relay) && Bytes(alg) && Bytes(sig)
    ensures var query := WrittenQuery(Escape(m), Some(Escape(relay)), Escape(alg), Some(Escape(sig)));
            && Extract(query).Ok?
            && var p := Extract(query).value;
            && p.samlRequest == m && p.relayState == relay && Unescape(p.sigAlgRaw) == Some(alg)
            && Unescape(p.signatureRaw) == Some(sig)
            && query == SignedOctets(p) + "&" + Pair(Signature, p.signatureRaw)
  {
    hide Pair, Extract, Escape, Unescape;
    EscapeRoundTrip(m);
    EscapeRoundTrip(relay);
    EscapeRoundTrip(alg);
    EscapeRoundTrip(sig);
    ConformingQueryReadsBack(Escape(m), Some(Escape(relay)), Escape(alg), Some(Escape(sig)));
  }

  function Unsigned(p: Params): Params { p.(signatureRaw := "", hasSignature := false) }

  lemma {:induction false} LookupEncoded(rawQuery: string, n: Name)
    requires Extract(rawQuery).Ok?
    ensures EncodedOption(Lookup(Split(rawQuery, '&'), n))
  {
    hide Spells, Names, Split, Cut, Lookup, Extract, Unescape;
    var pairs := Split(rawQuery, '&');
    if Lookup(pairs, n).Some? {
      LookupFinds(pairs, n);
      var i :| 0 <= i < |pairs| && Spells(pairs[i], n) && RawValue(pairs[i]) == Lookup(pairs, n).value;
      SpellsNames(pairs[i], n);
      NamedPairOk(rawQuery, n, i);
    }
  }

  /** Feeding the reconstructed octets back to the reader yields the parameters they were
      reconstructed from, for every accepted query that names an algorithm. */
  lemma {:induction false} OctetsReadBack(rawQuery: string)
    requires Extract(rawQuery).Ok? && Extract(rawQuery).value.hasSigAlg
    ensures Extract(SignedOctets(Extract(rawQuery).value)) == Ok(Unsigned(Extract(rawQuery).value))
  {
    hide Pair, Split, Lookup, FirstFault;
    var p := Extract(rawQuery).value;
    var pairs := Split(rawQuery, '&');
    LookupEncoded(rawQuery, SAMLRequest);
    LookupEncoded(rawQuery, RelayState);
    LookupEncoded(rawQuery, SigAlg);
    var relay := Lookup(pairs, RelayState);
    ConformingQueryReadsBack(p.samlRequestRaw, relay, p.sigAlgRaw, None);
    assert SignedOctets(p) == WrittenQuery(p.samlRequestRaw, relay, p.sigAlgRaw, None);
  }

  /** Whatever two accepted queries look like, if their signed octets agree then they carry
      the same message, relay state and algorithm: the verified bytes determine what is
      processed. */
  lemma {:induction false} OctetsDetermineMessage(q1: string, q2: string)
    requires Extract(q1).Ok? && Extract(q2).Ok? && Extract(q1).value.hasSigAlg && Extract(q2).value.hasSigAlg
    requires SignedOctets(Extract(q1).value) == SignedOctets(Extract(q2).value)
    ensures Unsigned(Extract(q1).value) == Unsigned(Extract(q2).value)
  {
    hide Extract, SignedOctets;
    OctetsReadBack(q1);
    OctetsReadBack(q2);
  }

  // ---------- Verifying the signature ----------

  datatype Hash = SHA1 | SHA256 | SHA384 | SHA512

  const RSA_SHA1 := "http://www.w3.org/2000/09/xmldsig#rsa-sha1"
  const RSA_SHA256 := "http://www.w3.org/2001/04/xmldsig-more#rsa-sha256"
  const RSA_SHA384 := "http://www.w3.org/2001/04/xmldsig-more#rsa-sha384"
  const RSA_SHA512 := "http://www.w3.org/2001/04/xmldsig-more#rsa-sha512"
  const ECDSA_SHA1 := "http://www.w3.org/2001/04/xmldsig-more#ecdsa-sha1"
  const ECDSA_SHA256 := "http://www.w3.org/2001/04/xmldsig-more#ecdsa-sha256"
  const ECDSA_SHA384 := "http://www.w3.org/2001/04/xmldsig-more#ecdsa-sha384"
  const ECDSA_SHA512 := "http://www.w3.org/2001/04/xmldsig-more#ecdsa-sha512"

  /** The registered certificate, as far as its PEM and its key go. */
  datatype Certificate = Blank | Unparsable | RSA(key: string) | ECDSA(key: string) | OtherKey

  datatype SignatureError = NoCertificate | NoSigAlg | NoSignature | NoRequest | BadEncoding | UnsupportedAlgorithm
    | SHA1Disabled
                          | BadCertificate | WrongKeyType | InvalidSignature

  function HashForSigAlg(sigAlg: string, allowSHA1: bool): Result<(Hash, bool), SignatureError> {
    if sigAlg == RSA_SHA1 then (if allowSHA1 then Ok((SHA1, false)) else Err(SHA1Disabled))
    else if sigAlg == RSA_SHA256 then Ok((SHA256, false))
    else if sigAlg == RSA_SHA384 then Ok((SHA384, false))
    else if sigAlg == RSA_SHA512 then Ok((SHA512, false))
    else if sigAlg == ECDSA_SHA1 then (if allowSHA1 then Ok((SHA1, true)) else Err(SHA1Disabled))
    else if sigAlg == ECDSA_SHA256 then Ok((SHA256, true))
    else if sigAlg == ECDSA_SHA384 then Ok((SHA384, true))
    else if sigAlg == ECDSA_SHA512 then Ok((SHA512, true))
    else Err(UnsupportedAlgorithm)
  }

  /** The name an algorithm goes by: RSA with SHA-1 in the older XML signature namespace,
      everything else in the newer one. */
  function AlgorithmURI(hash: Hash, ecdsa: bool): string {
    if hash.SHA1? && !ecdsa then "http://www.w3.org/2000/09/xmldsig#rsa-sha1"
    else "http://www.w3.org/2001/04/xmldsig-more#" + (if ecdsa then "ecdsa" else "rsa") + "-" + HashName(hash)
  }

  function HashName(hash: Hash): string {
    match hash
    case SHA1 => "sha1"
    case SHA256 => "sha256"
    case SHA384 => "sha384"
    case SHA512 => "sha512"
  }

  /** The table read backwards: an algorithm is recognised exactly under its own name, and SHA-1
      only under the opt-in. */
  lemma {:induction false} HashForSigAlgIff(sigAlg: string, allowSHA1: bool, hash: Hash, ecdsa: bool)
    ensures HashForSigAlg(sigAlg, allowSHA1) == Ok((hash, ecdsa))
            <==> sigAlg == AlgorithmURI(hash, ecdsa) && (hash.SHA1? ==> allowSHA1)
  {
    hide AlgorithmURI, RSA_SHA1, RSA_SHA256, RSA_SHA384, RSA_SHA512, ECDSA_SHA1, ECDSA_SHA256, ECDSA_SHA384,
         ECDSA_SHA512;
    AlgorithmNames();
    AlgorithmsDistinct();
  }

  lemma {:induction false} AlgorithmNames()
    ensures AlgorithmURI(SHA1, false) == RSA_SHA1 && AlgorithmURI(SHA1, true) == ECDSA_SHA1
    ensures AlgorithmURI(SHA256, false) == RSA_SHA256 && AlgorithmURI(SHA256, true) == ECDSA_SHA256
    ensures AlgorithmURI(SHA384, false) == RSA_SHA384 && AlgorithmURI(SHA384, true) == ECDSA_SHA384
    ensures AlgorithmURI(SHA512, false) == RSA_SHA512 && AlgorithmURI(SHA512, true) == ECDSA_SHA512
  {
  }

  lemma {:induction false} AlgorithmsDistinct()
    ensures RSA_SHA1 !in {RSA_SHA256, RSA_SHA384, RSA_SHA512, ECDSA_SHA1, ECDSA_SHA256, ECDSA_SHA384, ECDSA_SHA512}
    ensures RSA_SHA256 !in {RSA_SHA384, RSA_SHA512, ECDSA_SHA1, ECDSA_SHA256, ECDSA_SHA384, ECDSA_SHA512}
    ensures RSA_SHA384 !in {RSA_SHA512, ECDSA_SHA1, ECDSA_SHA256, ECDSA_SHA384, ECDSA_SHA512}
    ensures RSA_SHA512 !in {ECDSA_SHA1, ECDSA_SHA256, ECDSA_SHA384, ECDSA_SHA512}
    ensures ECDSA_SHA1 !in {ECDSA_SHA256, ECDSA_SHA384, ECDSA_SHA512}
    ensures ECDSA_SHA256 !in {ECDSA_SHA384, ECDSA_SHA512} && ECDSA_SHA384 != ECDSA_SHA512
  {
    assert |RSA_SHA1| == 42 && |RSA_SHA256| == 49 && |ECDSA_SHA1| == 49 && |ECDSA_SHA256| == 51;
    assert RSA_SHA256[46] == '2' && RSA_SHA384[46] == '3' && RSA_SHA512[46] == '5' && ECDSA_SHA1[46] == 'h';
    assert ECDSA_SHA256[48] == '2' && ECDSA_SHA384[48] == '3' && ECDSA_SHA512[48] == '5';
  }

  /** A signature made over exactly these octets with the certificate's key. */
  datatype SignedBy = SignedBy(cert: Certificate, hash: Hash, octets: string, signature: string)

  /** verifyRedirectSignature; `base64` decodes the signature value and `valid` says which
      signatures the key's owner has made. */
  function VerifyRedirectSignature(p: Params, cert: Certificate, allowSHA1: bool, base64: string -> Option<string>,
                                   valid: SignedBy -> bool): (e: Option<SignatureError>)
  {
    if cert.Blank? then Some(NoCertificate)
    else if !p.hasSigAlg then Some(NoSigAlg)
    else if !p.hasSignature then Some(NoSignature)
    else if p.samlRequestRaw == "" then Some(NoRequest)
    else if Unescape(p.sigAlgRaw).None? || Unescape(p.signatureRaw).None? then Some(BadEncoding)
    else
      var signature := base64(Unescape(p.signatureRaw).value);
      if signature.None? then Some(BadEncoding)
      else match HashForSigAlg(Unescape(p.sigAlgRaw).value, allowSHA1)
        case Err(e) => Some(e)
        case Ok((hash, isECDSA)) =>
          match cert
          case RSA(_) =>
            if isECDSA then Some(WrongKeyType)
            else if valid(SignedBy(cert, hash, SignedOctets(p), signature.value)) then None else Some(InvalidSignature)
          case ECDSA(_) =>
            if !isECDSA then Some(WrongKeyType)
            else if valid(SignedBy(cert, hash, SignedOctets(p), signature.value)) then None else Some(InvalidSignature)
          case Unparsable => Some(BadCertificate)
          case OtherKey => Some(BadCertificate)
          case Blank => Some(NoCertificate)
  }

  lemma {:induction false} SHA1OnlyWhenAllowed(sigAlg: string, allowSHA1: bool)
    requires HashForSigAlg(sigAlg, allowSHA1).Ok?
    ensures HashForSigAlg(sigAlg, allowSHA1).value.0.SHA1? <==> sigAlg in {RSA_SHA1, ECDSA_SHA1}
    ensures HashForSigAlg(sigAlg, allowSHA1).value.0.SHA1? ==> allowSHA1
  {
  }

  /** A request passes exactly when the key of the registered certificate signed its octets
      with an accepted hash of its own kind; the algorithm is the one inside those octets,
      and SHA-1 counts only under the opt-in. */
  lemma {:induction false} VerifiedIffSigned(q: string, cert: Certificate, allowSHA1: bool,
                                             base64: string -> Option<string>, valid: SignedBy -> bool)
    requires Extract(q).Ok?
    ensures var p := Extract(q).value;
            VerifyRedirectSignature(p, cert, allowSHA1, base64, valid).None?
            <==> && (cert.RSA? || cert.ECDSA?) && p.hasSigAlg && p.hasSignature && p.samlRequestRaw != ""
                 && exists hash: Hash, s: string ::
                      && base64(Decoded(Some(p.signatureRaw))) == Some(s)
                      && valid(SignedBy(cert, hash, SignedOctets(p), s))
                      && Decoded(Some(p.sigAlgRaw)) == AlgorithmURI(hash, cert.ECDSA?)
                      && (hash.SHA1? ==> allowSHA1)
  {
    hide Unescape, Lookup, Split, FirstFault, SignedOctets, HashForSigAlg, AlgorithmURI;
    var p := Extract(q).value;
    LookupEncoded(q, SigAlg);
    LookupEncoded(q, Signature);
    forall hash: Hash
      ensures HashForSigAlg(Decoded(Some(p.sigAlgRaw)), allowSHA1) == Ok((hash, cert.ECDSA?))
              <==> Decoded(Some(p.sigAlgRaw)) == AlgorithmURI(hash, cert.ECDSA?) && (hash.SHA1? ==> allowSHA1)
    {
      HashForSigAlgIff(Decoded(Some(p.sigAlgRaw)), allowSHA1, hash, cert.ECDSA?);
    }
  }
}
