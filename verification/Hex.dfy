/** Hexadecimal text as Node reads and writes it. */
module Hex {
  import opened Bytes
  import opened Results

  function Digit(n: nat): (c: char)
    requires n < 16
    ensures Nibble(c) == Some(n)
  {
    if n < 10 then '0' + n as char else 'a' + (n - 10) as char
  }

  function Nibble(c: char): (r: Option<nat>)
    ensures r.Some? ==> r.value < 16
  {
    if '0' <= c <= '9' then Some(c as int - '0' as int)
    else if 'a' <= c <= 'f' then Some(c as int - 'a' as int + 10)
    else if 'A' <= c <= 'F' then Some(c as int - 'A' as int + 10)
    else None
  }

  function Encode(b: seq<byte>): string {
    if b == [] then "" else [Digit(b[0] / 16), Digit(b[0] % 16)] + Encode(b[1..])
  }

  /** `Buffer.from(s, "hex")`: whole pairs up to the first pair that is not hexadecimal. */
  function Decode(s: string): seq<byte> {
    if |s| < 2 || Nibble(s[0]).None? || Nibble(s[1]).None? then []
    else [16 * Nibble(s[0]).value + Nibble(s[1]).value] + Decode(s[2..])
  }

  function Strip0x(s: string): string {
    if |s| >= 2 && s[0] == '0' && s[1] == 'x' then s[2..] else s
  }

  /** The bytes that hex text stands for, with or without the 0x prefix. */
  function FromText(s: string): seq<byte> {
    Decode(Strip0x(s))
  }

  /** Bytes and hex digits as numbers, most significant first. */
  function Number(b: seq<byte>): nat {
    if b == [] then 0 else 256 * Number(b[..|b| - 1]) + b[|b| - 1]
  }

  predicate IsHex(s: string) {
    forall i :: 0 <= i < |s| ==> '0' <= s[i] <= '9' || 'a' <= s[i] <= 'f'
  }

  function HexNumber(s: string): nat
    requires IsHex(s)
  {
    if s == "" then 0 else
      assert Nibble(s[|s| - 1]).Some?;
      16 * HexNumber(s[..|s| - 1]) + Nibble(s[|s| - 1]).value
  }

  lemma {:induction false} EncodeSnoc(b: seq<byte>, x: byte)
    ensures Encode(b + [x]) == Encode(b) + [Digit(x / 16), Digit(x % 16)]
  {
    if b == [] {
      assert [x][1..] == [];
      assert b + [x] == [x];
    } else {
      assert (b + [x])[1..] == b[1..] + [x];
      EncodeSnoc(b[1..], x);
    }
  }

  /** The text is two lower-case digits a byte, and spells the number that the bytes spell. */
  lemma {:induction false} EncodeIsTheNumber(b: seq<byte>)
    ensures |Encode(b)| == 2 * |b| && IsHex(Encode(b)) && HexNumber(Encode(b)) == Number(b)
  {
    if b != [] {
      var front, x := b[..|b| - 1], b[|b| - 1];
      EncodeIsTheNumber(front);
      EncodeSnoc(front, x);
      assert front + [x] == b;
      TwoDigits(Encode(front), x);
    }
  }

  lemma TwoDigits(s: string, x: byte)
    requires IsHex(s)
    ensures var t := s + [Digit(x / 16), Digit(x % 16)];
            IsHex(t) && HexNumber(t) == 256 * HexNumber(s) + x
  {
    var high := s + [Digit(x / 16)];
    var t := s + [Digit(x / 16), Digit(x % 16)];
    assert t[..|t| - 1] == high && high[..|high| - 1] == s;
    assert IsHex(high);
    assert HexNumber(high) == 16 * HexNumber(s) + x / 16;
  }

  lemma {:induction false} DecodeEncode(b: seq<byte>)
    ensures Decode(Encode(b)) == b
  {
    if b != [] {
      assert Encode(b)[2..] == Encode(b[1..]);
      DecodeEncode(b[1..]);
    }
  }

  /** Hex digits never spell the prefix, so stripping it is harmless on bare hex text. */
  lemma StripEncoded(b: seq<byte>)
    ensures Strip0x(Encode(b)) == Encode(b) && Strip0x("0x" + Encode(b)) == Encode(b)
    ensures FromText(Encode(b)) == FromText("0x" + Encode(b)) == b
  {
    DecodeEncode(b);
    if b != [] {
      assert Nibble(Encode(b)[1]).Some?;
      assert Nibble('x').None?;
    }
  }
}
