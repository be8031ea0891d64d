/**
 * Standard Base64 (section 4 of RFC 4648) as Ruby's Base64.strict_encode64
 * produces it: the standard alphabet, `=` padding and no line breaks.
 */
module Base64 {
  import opened RubyString

  newtype byte = x: int | 0 <= x < 256

  predicate InAlphabet(c: char) {
    IsUpper(c) || IsLower(c) || IsDigit(c) || c == '+' || c == '/'
  }

  /** The symbol for a six-bit value: A-Z, a-z, 0-9, then `+` and `/`. */
  function Symbol(i: int): (c: char)
    requires 0 <= i < 64
    ensures InAlphabet(c)
  {
    if i < 26 then ('A' as int + i) as char
    else if i < 52 then ('a' as int + (i - 26)) as char
    else if i < 62 then ('0' as int + (i - 52)) as char
    else if i == 62 then '+'
    else '/'
  }

  /** The four symbols of a full three-byte group. */
  function Quad(a: byte, b: byte, c: byte): string
  {
    var x, y, z := a as int, b as int, c as int;
    [Symbol(x / 4), Symbol((x % 4) * 16 + y / 16), Symbol((y % 16) * 4 + z / 64), Symbol(z % 64)]
  }

  /** The two symbols of a final one-byte group. */
  function Pair(a: byte): string
  {
    var x := a as int;
    [Symbol(x / 4), Symbol((x % 4) * 16)]
  }

  /** The three symbols of a final two-byte group. */
  function Triple(a: byte, b: byte): string
  {
    var x, y := a as int, b as int;
    [Symbol(x / 4), Symbol((x % 4) * 16 + y / 16), Symbol((y % 16) * 4)]
  }

  /** Base64.strict_encode64: a short final group is padded with `=` to four symbols. */
  function Encode(data: seq<byte>): (r: string)
    ensures |r| == 4 * ((|data| + 2) / 3)
  {
    if |data| == 0 then ""
    else if |data| == 1 then Pair(data[0]) + "=="
    else if |data| == 2 then Triple(data[0], data[1]) + "="
    else Quad(data[0], data[1], data[2]) + Encode(data[3..])
  }

  /** Unpadded Base64: a short final group is cut to the symbols that carry data. */
  function EncodeUnpadded(data: seq<byte>): (r: string)
    ensures |r| == (4 * |data| + 2) / 3
    ensures forall i :: 0 <= i < |r| ==> InAlphabet(r[i])
    ensures '=' !in r && ',' !in r
  {
    if |data| == 0 then ""
    else if |data| == 1 then Pair(data[0])
    else if |data| == 2 then Triple(data[0], data[1])
    else Quad(data[0], data[1], data[2]) + EncodeUnpadded(data[3..])
  }

  /** Deleting every `=` from the padded encoding leaves exactly the unpadded encoding. */
  lemma {:induction false} DeletePadding(data: seq<byte>)
    ensures DeleteChar(Encode(data), '=') == EncodeUnpadded(data)
  {
    if |data| == 1 {
      DeleteCharAppend(Pair(data[0]), "==", '=');
    } else if |data| == 2 {
      DeleteCharAppend(Triple(data[0], data[1]), "=", '=');
    } else if |data| >= 3 {
      DeleteCharAppend(Quad(data[0], data[1], data[2]), Encode(data[3..]), '=');
      DeletePadding(data[3..]);
    }
  }
}
