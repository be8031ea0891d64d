/**
 * Authsignal::Webhook: verification of a signed webhook request. The header
 * `t=<ts>,v2=<sig>[,v2=<sig>...]` is parsed, the timestamp is checked against
 * a tolerance window, the expected signature is recomputed as unpadded
 * Base64 of HMAC-SHA256 over "<ts>.<payload>", it is looked for among the
 * candidates, and only then is the payload decoded.
 */
module Webhook {
  import opened Results
  import opened RubyString
  import opened Base64
  import opened Json

  /** Authsignal::DEFAULT_TOLERANCE, in minutes. */
  const DefaultTolerance: int := 5

  /** Webhook::VERSION, the key of a signature fragment. */
  const Version: string := "v2"

  /** A raw HMAC-SHA256 digest: 32 bytes. */
  type Digest = d: seq<byte> | |d| == 32 witness seq(32, _ => 0 as byte)

  /** HMAC-SHA256 keyed with the secret over a message; the hash itself is a parameter. */
  type Hmac = (string, string) -> Digest

  /** JSON.parse: the parsed value, or None where it raises JSON::ParserError. */
  type Parser = string -> Option<Json>

  /** The three causes of Authsignal::InvalidSignatureError. */
  datatype Reason = FormatInvalid | OutsideTolerance | Mismatch

  datatype Error =
    | InvalidSignatureError(reason: Reason)
    | ParserError

  /** The message each InvalidSignatureError is raised with. */
  function Message(reason: Reason): (m: string)
    ensures |m| > 0 && m[|m| - 1] == '.'
  {
    match reason
    case FormatInvalid => "Signature format is invalid."
    case OutsideTolerance => "Timestamp is outside the tolerance zone."
    case Mismatch => "Signature mismatch."
  }

  /** The hash parse_signature builds; timestamp -1 means that no `t` fragment was read. */
  datatype Signature = Signature(timestamp: int, signatures: seq<string>)

  const Unparsed := Signature(-1, [])

  /* ---------------------------------------------------------------------
   * parse_signature
   * ------------------------------------------------------------------- */

  predicate IsTimestampFragment(item: string) {
    var kv := Split(item, '=');
    |kv| == 2 && kv[0] == "t"
  }

  predicate IsSignatureFragment(item: string) {
    var kv := Split(item, '=');
    |kv| == 2 && kv[0] == Version
  }

  predicate HasTimestampFragment(items: seq<string>) {
    |items| > 0 && (IsTimestampFragment(items[|items| - 1]) || HasTimestampFragment(items[..|items| - 1]))
  }

  /** One fragment applied to the hash being built: only `key=value` fragments count. */
  function Step(acc: Signature, item: string): Signature {
    var kv := Split(item, '=');
    if |kv| != 2 then acc
    else if kv[0] == "t" then acc.(timestamp := ToI(kv[1]))
    else if kv[0] == Version then acc.(signatures := acc.signatures + [kv[1]])
    else acc
  }

  /** The fragments applied in header order, starting from the sentinel. */
  function Scan(items: seq<string>): Signature {
    if |items| == 0 then Unparsed
    else Step(Scan(items[..|items| - 1]), items[|items| - 1])
  }

  /** What parse_signature returns or raises for a header, nil included. */
  function ParseHeader(value: Option<string>): Result<Signature, Error> {
    match value
    case None => Err(InvalidSignatureError(FormatInvalid))
    case Some(header) =>
      var s := Scan(Split(header, ','));
      if s.timestamp == -1 || |s.signatures| == 0 then Err(InvalidSignatureError(FormatInvalid))
      else Ok(s)
  }

  /**
   * Scanning two runs of fragments one after the other: the candidates are
   * concatenated in header order, and the timestamp is the second run's if
   * it has a `t` fragment (the last one wins), the first run's otherwise.
   */
  lemma {:induction false} ScanAppend(a: seq<string>, b: seq<string>)
    ensures Scan(a + b).signatures == Scan(a).signatures + Scan(b).signatures
    ensures Scan(a + b).timestamp
         == if HasTimestampFragment(b) then Scan(b).timestamp else Scan(a).timestamp
  {
    if |b| == 0 {
      assert a + b == a;
    } else {
      var n := |b| - 1;
      assert (a + b)[..|a + b| - 1] == a + b[..n];
      assert (a + b)[|a + b| - 1] == b[n];
      ScanAppend(a, b[..n]);
    }
  }

  /** A fragment that is neither `t=<v>` nor `v2=<v>` changes nothing, wherever it stands. */
  lemma IgnoredFragment(a: seq<string>, x: string, b: seq<string>)
    requires !IsTimestampFragment(x) && !IsSignatureFragment(x)
    ensures Scan(a + [x] + b) == Scan(a + b)
  {
    ScanAppend(a, [x]);
    ScanAppend(a + [x], b);
    ScanAppend(a, b);
    assert [x][..0] == [];
  }

  /** The fragment `t=<decimal>` as a sender writes it. */
  function TimestampFragment(timestamp: int): string {
    "t=" + IntToS(timestamp)
  }

  /** The fragment `v2=<sig>` as a sender writes it. */
  function SignatureFragment(sig: string): string {
    Version + "=" + sig
  }

  function SignatureFragments(sigs: seq<string>): (r: seq<string>)
    ensures |r| == |sigs|
  {
    seq(|sigs|, i requires 0 <= i < |sigs| => SignatureFragment(sigs[i]))
  }

  /** The header `t=<ts>,v2=<sig>,...` that a sender builds. */
  function FormatHeader(timestamp: int, sigs: seq<string>): string {
    Join([TimestampFragment(timestamp)] + SignatureFragments(sigs), ',')
  }

  /** A candidate that can stand in a header: non-empty, with no `=` and no `,`. */
  predicate WellFormedCandidate(sig: string) {
    sig != "" && '=' !in sig && ',' !in sig
  }

  lemma SplitTimestampFragment(timestamp: int)
    ensures Split(TimestampFragment(timestamp), '=') == ["t", IntToS(timestamp)]
  {
    var d := IntToS(timestamp);
    assert Join(["t", d], '=') == TimestampFragment(timestamp);
    SplitJoin(["t", d], '=');
  }

  lemma SplitSignatureFragment(sig: string)
    requires WellFormedCandidate(sig)
    ensures Split(SignatureFragment(sig), '=') == [Version, sig]
  {
    assert Join([Version, sig], '=') == SignatureFragment(sig);
    SplitJoin([Version, sig], '=');
  }

  lemma {:induction false} ScanFormatted(timestamp: int, sigs: seq<string>)
    requires forall i :: 0 <= i < |sigs| ==> WellFormedCandidate(sigs[i])
    ensures Scan([TimestampFragment(timestamp)] + SignatureFragments(sigs))
         == Signature(ToI(IntToS(timestamp)), sigs)
  {
    var items := [TimestampFragment(timestamp)] + SignatureFragments(sigs);
    if |sigs| == 0 {
      assert items[..0] == [];
      SplitTimestampFragment(timestamp);
    } else {
      var n := |sigs| - 1;
      FormattedPrefix(timestamp, sigs);
      ScanFormatted(timestamp, sigs[..n]);
      SplitSignatureFragment(sigs[n]);
    }
  }

  lemma FormattedPrefix(timestamp: int, sigs: seq<string>)
    requires |sigs| > 0
    ensures var items := [TimestampFragment(timestamp)] + SignatureFragments(sigs);
            && items[..|items| - 1] == [TimestampFragment(timestamp)] + SignatureFragments(sigs[..|sigs| - 1])
            && items[|items| - 1] == SignatureFragment(sigs[|sigs| - 1])
            && sigs[..|sigs| - 1] + [sigs[|sigs| - 1]] == sigs
  {
  }

  /** parse_signature reads back exactly the timestamp and the candidates a sender wrote. */
  lemma ParseFormattedHeader(timestamp: int, sigs: seq<string>)
    requires timestamp != -1 && |sigs| > 0
    requires forall i :: 0 <= i < |sigs| ==> WellFormedCandidate(sigs[i])
    ensures ParseHeader(Some(FormatHeader(timestamp, sigs))) == Ok(Signature(timestamp, sigs))
  {
    var fields := [TimestampFragment(timestamp)] + SignatureFragments(sigs);
    forall i | 0 <= i < |fields|
      ensures ',' !in fields[i]
    {
      if i == 0 {
        assert fields[0] == "t=" + IntToS(timestamp);
      } else {
        assert fields[i] == "v2=" + sigs[i - 1];
      }
    }
    SplitJoin(fields, ',');
    ScanFormatted(timestamp, sigs);
    ToIOfIntToS(timestamp);
  }

  /* ---------------------------------------------------------------------
   * construct_event
   * ------------------------------------------------------------------- */

  /** The freshness gate: only with a positive tolerance, and the boundary second passes. */
  predicate Stale(timestamp: int, tolerance: int, now: int) {
    tolerance > 0 && timestamp < now - tolerance * 60
  }

  /** The signed message: the parsed timestamp in decimal, a dot, the payload as received. */
  function HmacContent(timestamp: int, payload: string): string {
    IntToS(timestamp) + "." + payload
  }

  /** strict_encode64 of the digest with every `=` deleted: unpadded Base64, 43 symbols. */
  function ExpectedSignature(secret: string, timestamp: int, payload: string, hmac: Hmac): (r: string)
    ensures r == EncodeUnpadded(hmac(secret, HmacContent(timestamp, payload)))
    ensures |r| == 43 && WellFormedCandidate(r)
  {
    var digest := hmac(secret, HmacContent(timestamp, payload));
    DeletePadding(digest);
    DeleteChar(Encode(digest), '=')
  }

  /** The gates after parsing: freshness, then the signature, then the decode. */
  function CheckParsed(secret: string, payload: string, sig: Signature, tolerance: int,
                       now: int, hmac: Hmac, parse: Parser): Result<Json, Error>
  {
    if Stale(sig.timestamp, tolerance, now) then Err(InvalidSignatureError(OutsideTolerance))
    else if ExpectedSignature(secret, sig.timestamp, payload, hmac) !in sig.signatures then
      Err(InvalidSignatureError(Mismatch))
    else match parse(payload)
      case None => Err(ParserError)
      case Some(event) => Ok(event)
  }

  /** The result of construct_event: the parsed payload, or what it raises. */
  function Verify(secret: string, payload: string, header: Option<string>, tolerance: int,
                  now: int, hmac: Hmac, parse: Parser): (r: Result<Json, Error>)
    ensures header.None? ==> r == Err(InvalidSignatureError(FormatInvalid))
    ensures r.Ok? ==>
              && ParseHeader(header).Ok?
              && !Stale(ParseHeader(header).value.timestamp, tolerance, now)
              && ExpectedSignature(secret, ParseHeader(header).value.timestamp, payload, hmac)
                   in ParseHeader(header).value.signatures
              && parse(payload) == Some(r.value)
  {
    match ParseHeader(header)
    case Err(e) => Err(e)
    case Ok(sig) => CheckParsed(secret, payload, sig, tolerance, now, hmac, parse)
  }

  /** Looks for the expected signature among the candidates, stopping at the first match. */
  method FindMatch(expected: string, signatures: seq<string>) returns (matched: bool)
    ensures matched <==> expected in signatures
  {
    matched := false;
    var i := 0;
    while i < |signatures|
      invariant 0 <= i <= |signatures|
      invariant !matched
      invariant forall k :: 0 <= k < i ==> signatures[k] != expected
    {
      if signatures[i] == expected {
        matched := true;
        break;
      }
      i := i + 1;
    }
  }

  class Webhook {
    const apiSecretKey: string

    constructor(apiSecretKey: string)
      ensures this.apiSecretKey == apiSecretKey
    {
      this.apiSecretKey := apiSecretKey;
    }

    /** Builds the hash of the header's fragments; raises on nil or on a missing field. */
    method ParseSignature(value: Option<string>) returns (r: Result<Signature, Error>)
      ensures r == ParseHeader(value)
    {
      var result := Unparsed;
      if value.None? {
        return Err(InvalidSignatureError(FormatInvalid));
      }
      var items := Split(value.value, ',');
      var i := 0;
      while i < |items|
        invariant 0 <= i <= |items|
        invariant result == Scan(items[..i])
      {
        assert items[..i + 1][..i] == items[..i];
        var kv := Split(items[i], '=');
        if |kv| == 2 {
          if kv[0] == "t" {
            result := result.(timestamp := ToI(kv[1]));
          } else if kv[0] == Version {
            result := result.(signatures := result.signatures + [kv[1]]);
          }
        }
        i := i + 1;
      }
      assert items[..|items|] == items;
      if result.timestamp == -1 || |result.signatures| == 0 {
        return Err(InvalidSignatureError(FormatInvalid));
      }
      return Ok(result);
    }

    /**
     * construct_event with Time.now passed as `now`: each gate in turn,
     * the first failure is what is raised, and the payload is parsed last.
     */
    method ConstructEvent(payload: string, signature: Option<string>,
                          tolerance: int := DefaultTolerance, now: int,
                          hmac: Hmac, parse: Parser) returns (r: Result<Json, Error>)
      ensures r == Verify(apiSecretKey, payload, signature, tolerance, now, hmac, parse)
    {
      var parsed := ParseSignature(signature);
      assert parsed == ParseHeader(signature);
      if parsed.Err? {
        return Err(parsed.error);
      }
      var timestamp := parsed.value.timestamp;
      var signatures := parsed.value.signatures;
      if tolerance > 0 && timestamp < now - tolerance * 60 {
        return Err(InvalidSignatureError(OutsideTolerance));
      }
      var hmacContent := IntToS(timestamp) + "." + payload;
      var computedSignature := hmac(apiSecretKey, hmacContent);
      var computedSignatureBase64 := DeleteChar(Encode(computedSignature), '=');
      assert computedSignatureBase64 == ExpectedSignature(apiSecretKey, timestamp, payload, hmac);
      var matched := FindMatch(computedSignatureBase64, signatures);
      if !matched {
        return Err(InvalidSignatureError(Mismatch));
      }
      var event := parse(payload);
      if event.None? {
        return Err(ParserError);
      }
      return Ok(event.value);
    }
  }

  /* ---------------------------------------------------------------------
   * Properties of construct_event
   * ------------------------------------------------------------------- */

  /**
   * The gates run in the order format, freshness, signature, decode: each
   * outcome happens exactly when every earlier gate passed and its own failed.
   */
  lemma GateOrder(secret: string, payload: string, header: Option<string>, tolerance: int,
                  now: int, hmac: Hmac, parse: Parser)
    ensures var r := Verify(secret, payload, header, tolerance, now, hmac, parse);
      && (r == Err(InvalidSignatureError(FormatInvalid)) <==> ParseHeader(header).Err?)
      && (r == Err(InvalidSignatureError(OutsideTolerance)) <==>
            ParseHeader(header).Ok? && Stale(ParseHeader(header).value.timestamp, tolerance, now))
      && (r == Err(InvalidSignatureError(Mismatch)) <==>
            ParseHeader(header).Ok? && var s := ParseHeader(header).value;
            !Stale(s.timestamp, tolerance, now)
            && ExpectedSignature(secret, s.timestamp, payload, hmac) !in s.signatures)
      && (r.Ok? || r == Err(ParserError) <==>
            ParseHeader(header).Ok? && var s := ParseHeader(header).value;
            !Stale(s.timestamp, tolerance, now)
            && ExpectedSignature(secret, s.timestamp, payload, hmac) in s.signatures)
  {
    if ParseHeader(header).Ok? {
      assert ParseHeader(header).value.timestamp != -1;
    } else {
      assert ParseHeader(header).error == InvalidSignatureError(FormatInvalid);
    }
  }

  /**
   * The payload is parsed only after every check passed: on any other path
   * the result is the same whatever the parser does, and the HMAC is not
   * consulted before the freshness gate.
   */
  lemma ParseOnlyAfterVerification(secret: string, payload: string, header: Option<string>,
                                   tolerance: int, now: int, hmac1: Hmac, hmac2: Hmac,
                                   parse1: Parser, parse2: Parser)
    ensures var r1 := Verify(secret, payload, header, tolerance, now, hmac1, parse1);
            var r2 := Verify(secret, payload, header, tolerance, now, hmac1, parse2);
            r1.Err? && r1.error.InvalidSignatureError? ==> r2 == r1
    ensures var r1 := Verify(secret, payload, header, tolerance, now, hmac1, parse1);
            r1.Ok? ==> parse1(payload) == Some(r1.value)
    ensures var r1 := Verify(secret, payload, header, tolerance, now, hmac1, parse1);
            var r3 := Verify(secret, payload, header, tolerance, now, hmac2, parse1);
            r1 == Err(InvalidSignatureError(FormatInvalid)) || r1 == Err(InvalidSignatureError(OutsideTolerance))
            ==> r3 == r1
  {
    match ParseHeader(header)
    case Err(_) =>
    case Ok(sig) =>
      assert Verify(secret, payload, header, tolerance, now, hmac1, parse1)
          == CheckParsed(secret, payload, sig, tolerance, now, hmac1, parse1);
  }

  /** A well-formed header goes through the gates with exactly what its sender wrote. */
  lemma VerifyFormatted(secret: string, payload: string, timestamp: int, sigs: seq<string>,
                        tolerance: int, now: int, hmac: Hmac, parse: Parser)
    requires timestamp != -1 && |sigs| > 0
    requires forall i :: 0 <= i < |sigs| ==> WellFormedCandidate(sigs[i])
    ensures Verify(secret, payload, Some(FormatHeader(timestamp, sigs)), tolerance, now, hmac, parse)
         == CheckParsed(secret, payload, Signature(timestamp, sigs), tolerance, now, hmac, parse)
  {
    ParseFormattedHeader(timestamp, sigs);
  }

  /**
   * A header that a holder of the secret signed for this payload is
   * accepted when it is fresh, whichever position the right signature has
   * among the candidates (key rotation), and the result is the parsed payload.
   */
  lemma AcceptsSignedHeader(secret: string, payload: string, timestamp: int, sigs: seq<string>,
                            tolerance: int, now: int, hmac: Hmac, parse: Parser, event: Json)
    requires timestamp != -1 && !Stale(timestamp, tolerance, now)
    requires forall i :: 0 <= i < |sigs| ==> WellFormedCandidate(sigs[i])
    requires ExpectedSignature(secret, timestamp, payload, hmac) in sigs
    requires parse(payload) == Some(event)
    ensures Verify(secret, payload, Some(FormatHeader(timestamp, sigs)), tolerance, now, hmac, parse)
         == Ok(event)
  {
    VerifyFormatted(secret, payload, timestamp, sigs, tolerance, now, hmac, parse);
  }

  /**
   * An extra candidate that is not the expected signature changes nothing,
   * wherever it is placed among the others.
   */
  lemma ExtraCandidateIgnored(secret: string, payload: string, timestamp: int,
                              before: seq<string>, extra: string, after: seq<string>,
                              tolerance: int, now: int, hmac: Hmac, parse: Parser)
    requires timestamp != -1 && |before + after| > 0
    requires forall i :: 0 <= i < |before| ==> WellFormedCandidate(before[i])
    requires forall i :: 0 <= i < |after| ==> WellFormedCandidate(after[i])
    requires WellFormedCandidate(extra)
    requires extra != ExpectedSignature(secret, timestamp, payload, hmac)
    ensures Verify(secret, payload, Some(FormatHeader(timestamp, before + [extra] + after)), tolerance, now, hmac, parse)
         == Verify(secret, payload, Some(FormatHeader(timestamp, before + after)), tolerance, now, hmac, parse)
  {
    var s1, s2 := before + [extra] + after, before + after;
    AllWellFormedConcat(before, [extra] + after);
    AllWellFormedConcat(before, after);
    assert s1 == before + ([extra] + after);
    VerifyFormatted(secret, payload, timestamp, s1, tolerance, now, hmac, parse);
    VerifyFormatted(secret, payload, timestamp, s2, tolerance, now, hmac, parse);
    var expected := ExpectedSignature(secret, timestamp, payload, hmac);
    assert expected in s1 <==> expected in s2 by {
      assert expected in [extra] + after <==> expected in after;
    }
  }

  lemma AllWellFormedConcat(a: seq<string>, b: seq<string>)
    requires forall i :: 0 <= i < |a| ==> WellFormedCandidate(a[i])
    requires forall i :: 0 <= i < |b| ==> WellFormedCandidate(b[i])
    ensures forall i :: 0 <= i < |a + b| ==> WellFormedCandidate((a + b)[i])
  {
    forall i | 0 <= i < |a + b| ensures WellFormedCandidate((a + b)[i]) {
      if i < |a| { assert (a + b)[i] == a[i]; }
      else { assert (a + b)[i] == b[i - |a|]; }
    }
  }

  /** A candidate that is not 43 symbols long can never match. */
  lemma WrongLengthNeverMatches(secret: string, payload: string, timestamp: int, sigs: seq<string>,
                                tolerance: int, now: int, hmac: Hmac, parse: Parser)
    requires timestamp != -1 && |sigs| > 0 && !Stale(timestamp, tolerance, now)
    requires forall i :: 0 <= i < |sigs| ==> WellFormedCandidate(sigs[i]) && |sigs[i]| != 43
    ensures Verify(secret, payload, Some(FormatHeader(timestamp, sigs)), tolerance, now, hmac, parse)
         == Err(InvalidSignatureError(Mismatch))
  {
    VerifyFormatted(secret, payload, timestamp, sigs, tolerance, now, hmac, parse);
  }

  /**
   * The freshness gate: with a positive tolerance the boundary second
   * passes and the second before it is stale, and a tolerance of 0 or less
   * disables the gate.
   */
  lemma FreshnessBoundary(timestamp: int, tolerance: int, now: int)
    ensures tolerance > 0 ==> !Stale(now - tolerance * 60, tolerance, now)
    ensures tolerance > 0 ==> Stale(now - tolerance * 60 - 1, tolerance, now)
    ensures tolerance <= 0 ==> !Stale(timestamp, tolerance, now)
  {
  }

  /**
   * Freshness is monotone: a header newer than a fresh one is fresh, a
   * later clock only makes a header staler, and a wider tolerance accepts
   * whatever a narrower positive one accepts.
   */
  lemma FreshnessMonotone(older: int, newer: int, tolerance: int, wider: int, now: int, later: int)
    requires older <= newer && tolerance <= wider && now <= later
    ensures !Stale(older, tolerance, now) ==> !Stale(newer, tolerance, now)
    ensures Stale(older, tolerance, now) ==> Stale(older, tolerance, later)
    ensures tolerance > 0 && !Stale(older, tolerance, now) ==> !Stale(older, wider, now)
  {
  }

  /** The three reasons are told apart by their messages. */
  lemma MessagesDistinct(a: Reason, b: Reason)
    ensures a != b ==> Message(a) != Message(b)
  {
  }

  /** Scanning two fragments applies them in order. */
  lemma ScanTwo(x: string, y: string)
    ensures Scan([x, y]) == Step(Step(Unparsed, x), y)
  {
    assert [x][..0] == [];
    assert Scan([x]) == Step(Unparsed, x);
    assert [x, y][..1] == [x];
  }
}
