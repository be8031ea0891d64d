/**
 * Headers from the test suite of lib/authsignal/webhook.rb, and the
 * consequences of Ruby's split and to_i for the header parser.
 */
module WebhookExamples {
  import opened Results
  import opened RubyString
  import opened Webhook

  lemma {:induction false} ScanWithoutEquals(items: seq<string>)
    requires forall i :: 0 <= i < |items| ==> '=' !in items[i]
    ensures Scan(items) == Unparsed
  {
    if |items| > 0 {
      var n := |items| - 1;
      ScanWithoutEquals(items[..n]);
      SplitOfFree(items[n], '=');
    }
  }

  /** A header with no `=` anywhere, such as "123", has no usable fragment and is rejected. */
  lemma HeaderWithoutEqualsRejected(header: string)
    requires '=' !in header
    ensures ParseHeader(Some(header)) == Err(InvalidSignatureError(FormatInvalid))
  {
    var items := Split(header, ',');
    forall i | 0 <= i < |items| ensures '=' !in items[i] {
      SplitFieldsWithin(header, ',', '=');
    }
    ScanWithoutEquals(items);
  }

  lemma FormatOneCandidate(timestamp: int, sig: string)
    ensures FormatHeader(timestamp, [sig]) == TimestampFragment(timestamp) + "," + SignatureFragment(sig)
  {
    var fields := [TimestampFragment(timestamp)] + SignatureFragments([sig]);
    assert fields == [TimestampFragment(timestamp)] + [SignatureFragment(sig)];
    JoinCons(TimestampFragment(timestamp), [SignatureFragment(sig)], ',');
  }

  lemma ParseTwoFragments(first: string, second: string)
    requires first != "" && second != "" && ',' !in first && ',' !in second
    ensures ParseHeader(Some(first + "," + second))
         == var s := Step(Step(Unparsed, first), second);
            if s.timestamp == -1 || |s.signatures| == 0 then Err(InvalidSignatureError(FormatInvalid)) else Ok(s)
  {
    SplitPair(first, second, ',');
    ScanTwo(first, second);
  }

  /** A timestamp that does not start with a digit, a sign or a space, as in "t=abc", reads as 0 and passes. */
  lemma NonNumericTimestampReadsAsZero(text: string, sig: string)
    requires text != "" && !IsDigit(text[0]) && !IsSpace(text[0]) && text[0] != '-' && text[0] != '+'
    requires '=' !in text && ',' !in text && WellFormedCandidate(sig)
    ensures ParseHeader(Some("t=" + text + "," + SignatureFragment(sig))) == Ok(Signature(0, [sig]))
  {
    TimestampTextFragment(text);
    NonNumericToI(text);
    TimestampThenSignature("t=" + text, text, sig);
  }

  /** A `t` fragment followed by one signature fragment parses to that timestamp and that candidate. */
  lemma TimestampThenSignature(first: string, text: string, sig: string)
    requires first != "" && ',' !in first && Split(first, '=') == ["t", text]
    requires WellFormedCandidate(sig) && ToI(text) != -1
    ensures ParseHeader(Some(first + "," + SignatureFragment(sig))) == Ok(Signature(ToI(text), [sig]))
  {
    var second := SignatureFragment(sig);
    SplitSignatureFragment(sig);
    SignatureFragmentWithoutComma(sig);
    ParseTwoFragments(first, second);
    var s1 := Step(Unparsed, first);
    assert s1 == Signature(ToI(text), []);
    assert Step(s1, second) == Signature(ToI(text), [sig]);
  }

  lemma SignatureFragmentWithoutComma(sig: string)
    requires WellFormedCandidate(sig)
    ensures SignatureFragment(sig) != "" && ',' !in SignatureFragment(sig)
  {
    var f := SignatureFragment(sig);
    assert f == ['v', '2', '='] + sig;
    forall i | 0 <= i < |f| ensures f[i] != ',' {
      if i >= 3 {
        assert f[i] == sig[i - 3];
      }
    }
  }

  lemma TimestampTextFragment(text: string)
    requires text != "" && '=' !in text && ',' !in text
    ensures "t=" + text != "" && ',' !in "t=" + text
    ensures Split("t=" + text, '=') == ["t", text]
  {
    assert "t" + ['='] + text == "t=" + text;
    SplitPair("t", text, '=');
  }

  lemma NonNumericToI(text: string)
    requires text != "" && !IsDigit(text[0]) && !IsSpace(text[0]) && text[0] != '-' && text[0] != '+'
    ensures ToI(text) == 0
  {
    assert TrimLeadingSpace(text) == text;
  }

  /** The timestamp -1 is the sentinel itself, so "t=-1" leaves the header without a timestamp. */
  lemma SentinelTimestampRejected(sig: string)
    requires WellFormedCandidate(sig)
    ensures ParseHeader(Some(FormatHeader(-1, [sig]))) == Err(InvalidSignatureError(FormatInvalid))
  {
    FormatOneCandidate(-1, sig);
    ParseTwoFragments(TimestampFragment(-1), SignatureFragment(sig));
    SplitTimestampFragment(-1);
    ToIOfIntToS(-1);
    SplitSignatureFragment(sig);
  }

  /** A trailing `=` is an empty last field that split drops, so the candidate is kept. */
  lemma TrailingEqualsKept(timestamp: int, sig: string)
    requires timestamp != -1 && WellFormedCandidate(sig)
    ensures ParseHeader(Some(FormatHeader(timestamp, [sig]) + "=")) == Ok(Signature(timestamp, [sig]))
  {
    FormatOneCandidate(timestamp, sig);
    assert FormatHeader(timestamp, [sig]) + "=" == TimestampFragment(timestamp) + "," + (SignatureFragment(sig) + "=");
    ParseTwoFragments(TimestampFragment(timestamp), SignatureFragment(sig) + "=");
    SplitTimestampFragment(timestamp);
    ToIOfIntToS(timestamp);
    assert SignatureFragment(sig) + "=" == Version + ['='] + sig + ['='];
    SplitPairTrailing(Version, sig, '=');
    assert Step(Unparsed, TimestampFragment(timestamp)) == Signature(timestamp, []);
    assert Step(Signature(timestamp, []), SignatureFragment(sig) + "=") == Signature(timestamp, [sig]);
  }

  /** A fragment with two `=`, as in "v2=a=b", splits into three fields and is skipped. */
  lemma DoubleEqualsSkipped(a: string, b: string)
    requires a != "" && b != "" && '=' !in a && '=' !in b
    ensures !IsTimestampFragment(Version + "=" + a + "=" + b)
    ensures !IsSignatureFragment(Version + "=" + a + "=" + b)
  {
    JoinCons(a, [b], '=');
    assert [Version, a, b] == [Version] + [a, b] && [a, b] == [a] + [b];
    JoinCons(Version, [a, b], '=');
    assert Join([Version, a, b], '=') == Version + "=" + a + "=" + b;
    SplitJoin([Version, a, b], '=');
  }

  /**
   * A header stamped 1630000000 is stale under the default tolerance once
   * more than five minutes have passed, whatever its signature and whatever
   * the HMAC would give: freshness is checked before the signature.
   */
  lemma StaleHeaderReportsTimestamp(secret: string, payload: string, now: int, hmac: Hmac, parse: Parser)
    requires now > 1630000000 + DefaultTolerance * 60
    ensures Verify(secret, payload, Some(FormatHeader(1630000000, ["invalid_signature"])),
                   DefaultTolerance, now, hmac, parse)
         == Err(InvalidSignatureError(OutsideTolerance))
  {
    VerifyFormatted(secret, payload, 1630000000, ["invalid_signature"], DefaultTolerance, now, hmac, parse);
  }

  /** A fresh header whose only candidate is `invalid_signature` is a mismatch for every secret. */
  lemma InvalidSignatureMismatch(secret: string, payload: string, now: int, hmac: Hmac, parse: Parser)
    requires now != -1
    ensures Verify(secret, payload, Some(FormatHeader(now, ["invalid_signature"])),
                   DefaultTolerance, now, hmac, parse)
         == Err(InvalidSignatureError(Mismatch))
  {
    WrongLengthNeverMatches(secret, payload, now, ["invalid_signature"], DefaultTolerance, now, hmac, parse);
  }
}
