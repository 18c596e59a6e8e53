/**
 * Lower-case hexadecimal text of a byte buffer, as produced by Node's
 * `Buffer.toString('hex')`: two digits per byte, high nibble first,
 * digits drawn from "0123456789abcdef".
 */
module Hex {
  import opened Wrappers

  type Byte = b: int | 0 <= b < 256

  predicate IsHexDigit(c: char) {
    '0' <= c <= '9' || 'a' <= c <= 'f'
  }

  predicate IsHexString(s: string) {
    forall i :: 0 <= i < |s| ==> IsHexDigit(s[i])
  }

  /** The digit that stands for the nibble `n`. */
  function DigitOf(n: int): (c: char)
    requires 0 <= n < 16
    ensures IsHexDigit(c)
  {
    if n < 10 then ('0' as int + n) as char else ('a' as int + n - 10) as char
  }

  /** The nibble a digit stands for; the inverse of DigitOf. */
  function ValueOf(c: char): (n: int)
    requires IsHexDigit(c)
    ensures 0 <= n < 16
    ensures DigitOf(n) == c
  {
    if c <= '9' then c as int - '0' as int else c as int - 'a' as int + 10
  }

  function Encode(bytes: seq<Byte>): (s: string)
    ensures |s| == 2 * |bytes|
    ensures IsHexString(s)
  {
    if bytes == [] then []
    else [DigitOf(bytes[0] / 16), DigitOf(bytes[0] % 16)] + Encode(bytes[1..])
  }

  /** Reads back text written by Encode; None for odd length or a character outside the alphabet. */
  function Decode(s: string): (r: Option<seq<Byte>>)
    ensures r.Some? ==> 2 * |r.value| == |s|
  {
    if s == [] then Some([])
    else if |s| == 1 || !IsHexDigit(s[0]) || !IsHexDigit(s[1]) then None
    else match Decode(s[2..])
      case None => None
      case Some(rest) => Some([ValueOf(s[0]) * 16 + ValueOf(s[1])] + rest)
  }

  lemma {:induction false} DecodeEncode(bytes: seq<Byte>)
    ensures Decode(Encode(bytes)) == Some(bytes)
  {
    if bytes != [] {
      var b := bytes[0];
      var s := Encode(bytes);
      assert s[2..] == Encode(bytes[1..]);
      DecodeEncode(bytes[1..]);
      assert ValueOf(s[0]) == b / 16 && ValueOf(s[1]) == b % 16 by {
        assert DigitOf(ValueOf(s[0])) == s[0] == DigitOf(b / 16);
        assert DigitOf(ValueOf(s[1])) == s[1] == DigitOf(b % 16);
        DigitOfInjective(ValueOf(s[0]), b / 16);
        DigitOfInjective(ValueOf(s[1]), b % 16);
      }
      assert [b] + bytes[1..] == bytes;
    }
  }

  lemma DigitOfInjective(m: int, n: int)
    requires 0 <= m < 16 && 0 <= n < 16
    requires DigitOf(m) == DigitOf(n)
    ensures m == n
  {
  }

  lemma {:induction false} EncodeDecode(s: string)
    requires Decode(s).Some?
    ensures Encode(Decode(s).value) == s
  {
    if s != [] {
      var rest := Decode(s[2..]).value;
      EncodeDecode(s[2..]);
      var b := ValueOf(s[0]) * 16 + ValueOf(s[1]);
      assert Decode(s).value == [b] + rest;
      assert ([b] + rest)[1..] == rest;
      assert b / 16 == ValueOf(s[0]) && b % 16 == ValueOf(s[1]);
      assert s == [s[0], s[1]] + s[2..];
    }
  }

  /** Decode accepts exactly the even-length strings over the alphabet. */
  lemma {:induction false} DecodeAccepts(s: string)
    ensures Decode(s).Some? <==> |s| % 2 == 0 && IsHexString(s)
  {
    if s != [] && |s| != 1 {
      DecodeAccepts(s[2..]);
      if IsHexString(s) {
        assert IsHexString(s[2..]) by {
          forall i | 0 <= i < |s| - 2 ensures IsHexDigit(s[2..][i]) {
            assert s[2..][i] == s[i + 2];
          }
        }
      }
      if IsHexDigit(s[0]) && IsHexDigit(s[1]) && IsHexString(s[2..]) {
        forall i | 0 <= i < |s| ensures IsHexDigit(s[i]) {
          if i >= 2 { assert s[i] == s[2..][i - 2]; }
        }
      }
    }
  }
}
