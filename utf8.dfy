/** `Encoding.UTF8.GetBytes` on strings of Unicode scalar values, and its injectivity. */
module Utf8 {

  type Byte = b: int | 0 <= b < 256

  /** The one to four bytes UTF-8 uses for one scalar value. */
  function EncodeChar(c: char): (r: seq<Byte>)
    ensures 1 <= |r| <= 4
    ensures |r| == LeadLength(r[0])
  {
    var n := c as int;
    if n < 0x80 then [n]
    else if n < 0x800 then [0xC0 + n / 64, 0x80 + n % 64]
    else if n < 0x10000 then [0xE0 + n / 4096, 0x80 + (n / 64) % 64, 0x80 + n % 64]
    else [0xF0 + n / 262144, 0x80 + (n / 4096) % 64, 0x80 + (n / 64) % 64, 0x80 + n % 64]
  }

  /** The length of an encoded character, read off its first byte. */
  function LeadLength(b: Byte): nat {
    if b < 0x80 then 1 else if b < 0xE0 then 2 else if b < 0xF0 then 3 else 4
  }

  function Encode(s: string): (r: seq<Byte>)
    ensures |r| >= |s|
  {
    if s == [] then [] else EncodeChar(s[0]) + Encode(s[1..])
  }

  /** The scalar value an encoded character stands for. */
  function DecodeChar(e: seq<Byte>): int
    requires 1 <= |e| <= 4
  {
    if |e| == 1 then e[0] as int
    else if |e| == 2 then 64 * (e[0] as int - 0xC0) + (e[1] as int - 0x80)
    else if |e| == 3 then 4096 * (e[0] as int - 0xE0) + 64 * (e[1] as int - 0x80) + (e[2] as int - 0x80)
    else 262144 * (e[0] as int - 0xF0) + 4096 * (e[1] as int - 0x80) + 64 * (e[2] as int - 0x80) + (e[3] as int - 0x80)
  }

  lemma DecodeEncodeChar(c: char)
    ensures DecodeChar(EncodeChar(c)) == c as int
  {
    var n := c as int;
    if n < 0x80 {
    } else if n < 0x800 {
      assert n == 64 * (n / 64) + n % 64;
    } else if n < 0x10000 {
      assert n / 64 == 64 * (n / 4096) + (n / 64) % 64;
      assert n == 64 * (n / 64) + n % 64;
    } else {
      assert n / 4096 == 64 * (n / 262144) + (n / 4096) % 64;
      assert n / 64 == 64 * (n / 4096) + (n / 64) % 64;
      assert n == 64 * (n / 64) + n % 64;
    }
  }

  lemma EncodeCharInjective(c: char, d: char)
    requires EncodeChar(c) == EncodeChar(d)
    ensures c == d
  {
    DecodeEncodeChar(c);
    DecodeEncodeChar(d);
  }

  /** Different strings have different encodings. */
  lemma {:induction false} EncodeInjective(s: string, t: string)
    requires Encode(s) == Encode(t)
    ensures s == t
  {
    if s != [] && t != [] {
      var e := Encode(s);
      var a, b := EncodeChar(s[0]), EncodeChar(t[0]);
      assert e == a + Encode(s[1..]) && e == b + Encode(t[1..]);
      assert e[0] == a[0] == b[0];
      assert e[..|a|] == a && e[..|b|] == b;
      EncodeCharInjective(s[0], t[0]);
      assert e[|a|..] == Encode(s[1..]) && e[|a|..] == Encode(t[1..]);
      EncodeInjective(s[1..], t[1..]);
    }
  }
}
