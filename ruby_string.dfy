/**
 * The parts of Ruby's String and Integer behaviour that the client library
 * relies on: ASCII case mapping, String#split with a one-character
 * separator, String#delete, Integer#to_s and the lenient String#to_i.
 */
module RubyString {

  predicate IsUpper(c: char) { 'A' <= c <= 'Z' }
  predicate IsLower(c: char) { 'a' <= c <= 'z' }
  predicate IsDigit(c: char) { '0' <= c <= '9' }

  /** The whitespace that String#to_i skips before the number. */
  predicate IsSpace(c: char) {
    c == ' ' || c == '\t' || c == '\n' || c == '\r' || c == '\U{B}' || c == '\U{C}'
  }

  predicate HasUpper(s: string) {
    exists i :: 0 <= i < |s| && IsUpper(s[i])
  }

  function ToLower(c: char): (r: char)
    ensures !IsUpper(r)
    ensures IsUpper(c) ==> IsLower(r)
    ensures !IsUpper(c) ==> r == c
  {
    if IsUpper(c) then (c as int + 32) as char else c
  }

  function ToUpper(c: char): (r: char)
    ensures !IsLower(r)
    ensures IsLower(c) ==> IsUpper(r)
    ensures !IsLower(c) ==> r == c
  {
    if IsLower(c) then (c as int - 32) as char else c
  }

  /** String#downcase, restricted to ASCII letters. */
  function Downcase(s: string): (r: string)
    ensures |r| == |s|
    ensures !HasUpper(r)
    ensures !HasUpper(s) ==> r == s
  {
    seq(|s|, i requires 0 <= i < |s| => ToLower(s[i]))
  }

  /** String#capitalize: first character upper case, the rest lower case. */
  function Capitalize(s: string): (r: string)
    ensures |r| == |s|
    ensures |s| > 0 ==> !IsLower(r[0]) && !HasUpper(r[1..])
  {
    if |s| == 0 then "" else [ToUpper(s[0])] + Downcase(s[1..])
  }

  /** String#delete with a single character: every occurrence of c is removed. */
  function DeleteChar(s: string, c: char): (r: string)
    ensures c !in r
    ensures c !in s ==> r == s
    ensures |r| <= |s|
  {
    if |s| == 0 then ""
    else if s[0] == c then DeleteChar(s[1..], c)
    else [s[0]] + DeleteChar(s[1..], c)
  }

  lemma {:induction false} DeleteCharAppend(a: string, b: string, c: char)
    ensures DeleteChar(a + b, c) == DeleteChar(a, c) + DeleteChar(b, c)
  {
    if |a| > 0 {
      assert (a + b)[1..] == a[1..] + b;
      DeleteCharAppend(a[1..], b, c);
    } else {
      assert a + b == b;
    }
  }

  /* ---------------------------------------------------------------------
   * String#split with a one-character separator that is not a space:
   * the string is cut at every occurrence of the separator, and the
   * trailing empty fields are then dropped ("" splits into no fields).
   * ------------------------------------------------------------------- */

  /** All fields between occurrences of c, empty ones included. */
  function SplitAll(s: string, c: char): (r: seq<string>)
    ensures |r| >= 1
    ensures forall i :: 0 <= i < |r| ==> c !in r[i]
  {
    if |s| == 0 then [""]
    else
      var rest := SplitAll(s[1..], c);
      if s[0] == c then [""] + rest else [[s[0]] + rest[0]] + rest[1..]
  }

  function DropTrailingEmpty(fields: seq<string>): (r: seq<string>)
    ensures r <= fields
    ensures |r| > 0 ==> r[|r| - 1] != ""
    ensures forall i :: |r| <= i < |fields| ==> fields[i] == ""
  {
    if |fields| == 0 then []
    else if fields[|fields| - 1] == "" then DropTrailingEmpty(fields[..|fields| - 1])
    else fields
  }

  /** Ruby's str.split(c): no field holds c. */
  function Split(s: string, c: char): (r: seq<string>)
    ensures forall i :: 0 <= i < |r| ==> c !in r[i]
  {
    DropTrailingEmpty(SplitAll(s, c))
  }

  /** split drops trailing empty fields, so the last field is never empty and "" gives no field. */
  lemma SplitEnds(s: string, c: char)
    ensures var r := Split(s, c); |r| > 0 ==> r[|r| - 1] != ""
    ensures |s| == 0 ==> Split(s, c) == []
  {
  }

  /** Array#join(sep) for a one-character separator. */
  function Join(fields: seq<string>, c: char): string
  {
    if |fields| == 0 then ""
    else if |fields| == 1 then fields[0]
    else fields[0] + [c] + Join(fields[1..], c)
  }

  lemma JoinCons(x: string, rest: seq<string>, c: char)
    requires |rest| >= 1
    ensures Join([x] + rest, c) == x + [c] + Join(rest, c)
  {
    assert ([x] + rest)[1..] == rest;
  }

  /** Array#join with no separator. */
  function Concat(parts: seq<string>): string
  {
    if |parts| == 0 then "" else parts[0] + Concat(parts[1..])
  }

  lemma {:induction false} ConcatFree(parts: seq<string>, c: char)
    requires forall i :: 0 <= i < |parts| ==> c !in parts[i]
    ensures c !in Concat(parts)
  {
    if |parts| > 0 {
      ConcatFree(parts[1..], c);
    }
  }

  lemma {:induction false} SplitAllOfFree(s: string, c: char)
    requires c !in s
    ensures SplitAll(s, c) == [s]
  {
    if |s| > 0 {
      SplitAllOfFree(s[1..], c);
      assert [s[0]] + s[1..] == s;
    }
  }

  lemma {:induction false} SplitAllPrefix(a: string, b: string, c: char)
    requires c !in a
    ensures SplitAll(a + [c] + b, c) == [a] + SplitAll(b, c)
  {
    if |a| == 0 {
      assert a + [c] + b == [c] + b;
      assert ([c] + b)[1..] == b;
    } else {
      assert (a + [c] + b)[1..] == a[1..] + [c] + b;
      SplitAllPrefix(a[1..], b, c);
      assert [a[0]] + a[1..] == a;
    }
  }

  /** Splitting a join gives back the fields, none of which holds the separator. */
  lemma {:induction false} SplitAllJoin(fields: seq<string>, c: char)
    requires |fields| >= 1
    requires forall i :: 0 <= i < |fields| ==> c !in fields[i]
    ensures SplitAll(Join(fields, c), c) == fields
  {
    if |fields| == 1 {
      SplitAllOfFree(fields[0], c);
    } else {
      SplitAllJoin(fields[1..], c);
      SplitAllPrefix(fields[0], Join(fields[1..], c), c);
      assert [fields[0]] + fields[1..] == fields;
    }
  }

  /** Ruby's split undoes a join whose last field is not empty. */
  lemma SplitJoin(fields: seq<string>, c: char)
    requires |fields| >= 1 && fields[|fields| - 1] != ""
    requires forall i :: 0 <= i < |fields| ==> c !in fields[i]
    ensures Split(Join(fields, c), c) == fields
  {
    SplitAllJoin(fields, c);
  }

  /** Split of `a<c>b` when neither part holds c and b is not empty. */
  lemma SplitPair(a: string, b: string, c: char)
    requires c !in a && c !in b && b != ""
    ensures Split(a + [c] + b, c) == [a, b]
  {
    assert Join([a, b], c) == a + [c] + b;
    SplitJoin([a, b], c);
  }

  /** Split of `a<c>b<c>`: the empty last field is dropped. */
  lemma SplitPairTrailing(a: string, b: string, c: char)
    requires c !in a && c !in b && b != ""
    ensures Split(a + [c] + b + [c], c) == [a, b]
  {
    SplitAllPrefix(a, b + [c], c);
    assert a + [c] + b + [c] == a + [c] + (b + [c]);
    SplitAllPrefix(b, "", c);
    assert b + [c] + "" == b + [c];
    assert SplitAll(b + [c], c) == [b, ""];
    assert SplitAll(a + [c] + b + [c], c) == [a, b, ""];
    assert [a, b, ""][..2] == [a, b];
    assert DropTrailingEmpty([a, b, ""]) == DropTrailingEmpty([a, b]);
  }

  /** A character absent from the string is absent from every field of its split. */
  lemma SplitFieldsWithin(s: string, c: char, d: char)
    requires d !in s
    ensures forall i :: 0 <= i < |Split(s, c)| ==> d !in Split(s, c)[i]
  {
    SplitAllWithin(s, c, d);
  }

  lemma {:induction false} SplitAllWithin(s: string, c: char, d: char)
    requires d !in s
    ensures forall i :: 0 <= i < |SplitAll(s, c)| ==> d !in SplitAll(s, c)[i]
  {
    if |s| > 0 {
      SplitAllWithin(s[1..], c, d);
    }
  }

  /** A string without the separator is one field, or none when it is empty. */
  lemma SplitOfFree(s: string, c: char)
    requires c !in s
    ensures Split(s, c) == if s == "" then [] else [s]
  {
    SplitAllOfFree(s, c);
  }

  /* ---------------------------------------------------------------------
   * Integer#to_s and String#to_i in base 10.
   * ------------------------------------------------------------------- */

  function DigitChar(d: nat): (c: char)
    requires d < 10
    ensures IsDigit(c)
  {
    ('0' as int + d) as char
  }

  function DigitValue(c: char): nat
    requires IsDigit(c)
  {
    c as int - '0' as int
  }

  predicate AllDigits(s: string) {
    forall i :: 0 <= i < |s| ==> IsDigit(s[i])
  }

  /** The decimal digits of n, most significant first, without leading zeros. */
  function NatToS(n: nat): (r: string)
    ensures |r| >= 1 && AllDigits(r)
  {
    if n < 10 then [DigitChar(n)] else NatToS(n / 10) + [DigitChar(n % 10)]
  }

  /** Integer#to_s. */
  function IntToS(n: int): (r: string)
    ensures |r| >= 1
    ensures forall i :: 0 <= i < |r| ==> IsDigit(r[i]) || r[i] == '-'
  {
    if n < 0 then "-" + NatToS(-n) else NatToS(n)
  }

  function DigitsValue(s: string): nat
    requires AllDigits(s)
  {
    if |s| == 0 then 0 else DigitsValue(s[..|s| - 1]) * 10 + DigitValue(s[|s| - 1])
  }

  /**
   * The digits of the longest prefix of t that reads as a decimal numeral:
   * digits, with single underscores allowed between two digits.
   */
  function LeadingDigits(t: string): (r: string)
    ensures AllDigits(r)
  {
    if |t| == 0 || !IsDigit(t[0]) then ""
    else if |t| >= 3 && t[1] == '_' && IsDigit(t[2]) then [t[0]] + LeadingDigits(t[2..])
    else [t[0]] + LeadingDigits(t[1..])
  }

  function TrimLeadingSpace(s: string): (r: string)
    ensures |r| <= |s| && r == s[|s| - |r|..]
    ensures |r| > 0 ==> !IsSpace(r[0])
  {
    if |s| > 0 && IsSpace(s[0]) then TrimLeadingSpace(s[1..]) else s
  }

  /** The optional `0d` or `0D` radix prefix that a base-10 to_i skips. */
  function DropDecimalPrefix(t: string): (r: string)
    ensures r == t || (|t| >= 2 && t[0] == '0' && r == t[2..])
  {
    if |t| >= 2 && t[0] == '0' && (t[1] == 'd' || t[1] == 'D') then t[2..] else t
  }

  /** The value of the numeral at the start of t, after an optional `0d` prefix; 0 when there is none. */
  function Numeral(t: string): (r: nat)
    ensures |t| == 0 || !IsDigit(t[0]) ==> r == 0
  {
    DigitsValue(LeadingDigits(DropDecimalPrefix(t)))
  }

  /**
   * String#to_i: leading whitespace, an optional sign, an optional `0d`
   * prefix and a numeral; a string that does not start that way reads as 0
   * and never fails.
   */
  function ToI(s: string): (r: int)
    ensures (forall i :: 0 <= i < |s| ==> !IsDigit(s[i])) ==> r == 0
  {
    var t := TrimLeadingSpace(s);
    assert |t| > 1 ==> t[1] == s[|s| - |t| + 1];
    if |t| > 0 && t[0] == '-' then -(Numeral(t[1..]) as int)
    else if |t| > 0 && t[0] == '+' then Numeral(t[1..])
    else Numeral(t)
  }

  /** A numeral reads the same with or without the `0d` prefix: "0d17" reads as 17. */
  lemma DecimalPrefixSkipped(d: string)
    requires |d| > 0 && AllDigits(d)
    ensures ToI("0d" + d) == ToI(d) == DigitsValue(d)
  {
    var s := "0d" + d;
    assert s[0] == '0' && s[1] == 'd' && s[2..] == d;
    ToIUnsigned(s);
    ToIUnsigned(d);
    assert DropDecimalPrefix(s) == d;
    NoPrefixInDigits(d);
    assert Numeral(s) == Numeral(d) == DigitsValue(LeadingDigits(d));
    LeadingDigitsOfDigits(d);
  }

  /** A run of digits has no `0d` prefix to skip. */
  lemma NoPrefixInDigits(d: string)
    requires AllDigits(d)
    ensures DropDecimalPrefix(d) == d
  {
    if |d| >= 2 {
      assert IsDigit(d[1]);
    }
  }

  lemma ToIUnsigned(s: string)
    requires |s| > 0 && (IsDigit(s[0]) || IsLower(s[0]))
    ensures ToI(s) == Numeral(s)
  {
    assert TrimLeadingSpace(s) == s by {
      assert !IsSpace(s[0]);
    }
  }

  lemma {:induction false} LeadingDigitsOfDigits(t: string)
    requires AllDigits(t)
    ensures LeadingDigits(t) == t
  {
    if |t| > 0 {
      LeadingDigitsOfDigits(t[1..]);
      assert [t[0]] + t[1..] == t;
    }
  }

  lemma {:induction false} DigitsValueOfNatToS(n: nat)
    ensures DigitsValue(NatToS(n)) == n
  {
    if n >= 10 {
      var s := NatToS(n);
      assert s[..|s| - 1] == NatToS(n / 10);
      DigitsValueOfNatToS(n / 10);
    }
  }

  /** Reading back the decimal rendering of any integer gives that integer. */
  lemma ToIOfIntToS(n: int)
    ensures ToI(IntToS(n)) == n
  {
    var d := NatToS(if n < 0 then -n else n);
    NoPrefixInDigits(d);
    LeadingDigitsOfDigits(d);
    DigitsValueOfNatToS(if n < 0 then -n else n);
    assert Numeral(d) == DigitsValue(d);
    if n < 0 {
      ToINegative(IntToS(n));
      assert IntToS(n)[1..] == d;
    } else {
      ToIUnsigned(d);
    }
  }

  lemma ToINegative(s: string)
    requires |s| > 0 && s[0] == '-'
    ensures ToI(s) == -(Numeral(s[1..]) as int)
  {
    assert TrimLeadingSpace(s) == s by {
      assert !IsSpace(s[0]);
    }
  }
}
