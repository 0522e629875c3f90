/** Bytes, hexadecimal text and unsigned big-endian integers. */
module Bytes {
  import opened Text

  type byte = b: int | 0 <= b < 256
  type Bytes = seq<byte>

  function HexDigit(n: int): char
    requires 0 <= n < 16
  {
    if n < 10 then ('0' as int + n) as char else ('a' as int + (n - 10)) as char
  }

  function HexValue(c: char): (v: Option<int>)
    ensures v.Some? ==> 0 <= v.value < 16
  {
    if '0' <= c <= '9' then Some(c as int - '0' as int)
    else if 'a' <= c <= 'f' then Some(c as int - 'a' as int + 10)
    else if 'A' <= c <= 'F' then Some(c as int - 'A' as int + 10)
    else None
  }

  /** `hex.EncodeToString`: two lower-case digits a byte. */
  function HexEncode(bs: Bytes): (s: string)
    ensures |s| == 2 * |bs|
    ensures forall c :: c in s ==> HexValue(c).Some?
  {
    if bs == [] then ""
    else [HexDigit(bs[0] / 16), HexDigit(bs[0] % 16)] + HexEncode(bs[1..])
  }

  /** `hex.DecodeString`: fails on an odd length or on a foreign character. */
  function HexDecode(s: string): Option<Bytes> {
    if s == "" then Some([])
    else if |s| == 1 then None
    else
      match (HexValue(s[0]), HexValue(s[1]), HexDecode(s[2..]))
      case (Some(hi), Some(lo), Some(rest)) => Some([hi * 16 + lo] + rest)
      case _ => None
  }

  lemma {:induction false} HexRoundTrip(bs: Bytes)
    ensures HexDecode(HexEncode(bs)) == Some(bs)
  {
    if bs != [] {
      HexRoundTrip(bs[1..]);
      var s := HexEncode(bs);
      assert s[2..] == HexEncode(bs[1..]);
      assert bs == [bs[0]] + bs[1..];
    }
  }

  const HEX_DIGITS := "0123456789abcdef"

  /** The text: for each byte its high and then its low digit, in small letters. */
  lemma {:induction false} HexText(bs: Bytes, i: nat)
    requires i < |bs|
    ensures HexEncode(bs)[2 * i] == HEX_DIGITS[bs[i] / 16] && HexEncode(bs)[2 * i + 1] == HEX_DIGITS[bs[i] % 16]
  {
    if i == 0 {
      DigitListed(bs[0] / 16);
      DigitListed(bs[0] % 16);
    } else {
      HexText(bs[1..], i - 1);
      assert HexEncode(bs)[2..] == HexEncode(bs[1..]);
    }
  }

  lemma DigitListed(n: int)
    requires 0 <= n < 16
    ensures HexDigit(n) == HEX_DIGITS[n]
  {}

  lemma DigitValue(c: char, n: int)
    requires 0 <= n < 16
    ensures HexValue(c) == Some(n) <==> LowerChar(c) == HexDigit(n)
  {}

  /** A text decodes to some bytes exactly if it is their text, letters small or capital. */
  lemma {:induction false} HexDecodeExact(s: string, bs: Bytes)
    ensures HexDecode(s) == Some(bs) <==> ToLower(s) == HexEncode(bs)
    decreases |s|
  {
    if s == "" || bs == [] {
      HexShort(s, bs);
    } else if |s| > 1 {
      HexDecodeExact(s[2..], bs[1..]);
      DigitValue(s[0], bs[0] / 16);
      DigitValue(s[1], bs[0] % 16);
      TextFirst(s, bs);
      BytesFirst(s, bs);
    }
  }

  lemma HexShort(s: string, bs: Bytes)
    requires s == "" || bs == []
    ensures HexDecode(s) == Some(bs) <==> ToLower(s) == HexEncode(bs)
  {
    assert |HexEncode(bs)| == 2 * |bs| && |ToLower(s)| == |s|;
    if s == "" && bs == [] { assert ToLower(s) == ""; }
  }

  lemma TextFirst(s: string, bs: Bytes)
    requires |s| > 1 && bs != []
    ensures ToLower(s) == HexEncode(bs) <==>
            && LowerChar(s[0]) == HexDigit(bs[0] / 16) && LowerChar(s[1]) == HexDigit(bs[0] % 16)
            && ToLower(s[2..]) == HexEncode(bs[1..])
  {
    var t, u := ToLower(s), HexEncode(bs);
    assert t == [LowerChar(s[0]), LowerChar(s[1])] + ToLower(s[2..]);
    assert u[0] == HexDigit(bs[0] / 16) && u[1] == HexDigit(bs[0] % 16) && u[2..] == HexEncode(bs[1..]);
    assert t[0] == LowerChar(s[0]) && t[1] == LowerChar(s[1]) && t[2..] == ToLower(s[2..]);
  }

  lemma BytesFirst(s: string, bs: Bytes)
    requires |s| > 1 && bs != []
    ensures HexDecode(s) == Some(bs) <==>
            && HexValue(s[0]) == Some(bs[0] / 16) && HexValue(s[1]) == Some(bs[0] % 16)
            && HexDecode(s[2..]) == Some(bs[1..])
  {
    assert bs == [bs[0]] + bs[1..];
    if HexValue(s[0]).Some? && HexValue(s[1]).Some? && HexDecode(s[2..]).Some? {
      var b, rest := HexValue(s[0]).value * 16 + HexValue(s[1]).value, HexDecode(s[2..]).value;
      assert HexDecode(s) == Some([b] + rest);
      assert b / 16 == HexValue(s[0]).value && b % 16 == HexValue(s[1]).value;
      assert [b] + rest == bs <==> b == bs[0] && rest == bs[1..];
    }
  }

  function Pow256(n: nat): nat
    ensures Pow256(n) > 0
  {
    if n == 0 then 1 else 256 * Pow256(n - 1)
  }

  /** `big.Int.SetBytes`: unsigned, most significant byte first. */
  function ToNat(bs: Bytes): nat {
    if bs == [] then 0 else ToNat(bs[..|bs| - 1]) * 256 + bs[|bs| - 1]
  }

  /** `big.Int.FillBytes` into a buffer of the given width, which panics when the value does not fit. */
  function Fill(n: nat, width: nat): (bs: Bytes)
    requires n < Pow256(width)
    ensures |bs| == width
  {
    if width == 0 then [] else Fill(n / 256, width - 1) + [n % 256]
  }

  /** The first byte weighs most. */
  lemma {:induction false} ToNatFirst(b: byte, rest: Bytes)
    ensures ToNat([b] + rest) == b * Pow256(|rest|) + ToNat(rest)
  {
    var all := [b] + rest;
    if rest == [] {
      assert all[..0] == [];
    } else {
      var front := rest[..|rest| - 1];
      ToNatFirst(b, front);
      assert all[..|all| - 1] == [b] + front;
    }
  }

  lemma {:induction false} ToNatFits(bs: Bytes)
    ensures ToNat(bs) < Pow256(|bs|)
  {
    if bs != [] { ToNatFits(bs[..|bs| - 1]); }
  }

  /** Leading zero bytes lost by the integer come back with the fixed width. */
  lemma {:induction false} FillRoundTrip(bs: Bytes)
    ensures ToNat(bs) < Pow256(|bs|)
    ensures Fill(ToNat(bs), |bs|) == bs
  {
    ToNatFits(bs);
    if bs != [] {
      FillRoundTrip(bs[..|bs| - 1]);
      assert bs == bs[..|bs| - 1] + [bs[|bs| - 1]];
    }
  }
}
