/** UTF-8 as the fuzzy automaton meets it: the encoding of section 3 of RFC 3629 and the byte
    syntax of its section 4, which `std::str::from_utf8` checks. Dafny's `char` is a Unicode
    scalar value, as Rust's is. */
module Utf8 {
  import opened Options

  type Byte = b: int | 0 <= b < 256

  /** Section 3 of RFC 3629. */
  function Encode(c: char): (bytes: seq<Byte>)
    ensures 1 <= |bytes| <= 4
  {
    var n := c as int;
    if n < 0x80 then [n]
    else if n < 0x800 then [0xc0 + n / 64, 0x80 + n % 64]
    else if n < 0x1_0000 then [0xe0 + n / 4096, 0x80 + n / 64 % 64, 0x80 + n % 64]
    else [0xf0 + n / 26_2144, 0x80 + n / 4096 % 64, 0x80 + n / 64 % 64, 0x80 + n % 64]
  }

  function EncodeAll(cs: string): seq<Byte>
  {
    if cs == [] then [] else Encode(cs[0]) + EncodeAll(cs[1..])
  }

  /** `utf8_width`: how many bytes the character starting with `lead` takes, 0 for none. */
  function Width(lead: Byte): nat
  {
    if lead <= 0x7f then 1
    else if 0xc2 <= lead <= 0xdf then 2
    else if 0xe0 <= lead <= 0xef then 3
    else if 0xf0 <= lead <= 0xf4 then 4
    else 0
  }

  /** `(byte & 0xc0) == 0x80` */
  predicate IsContinuation(b: Byte) { 0x80 <= b <= 0xbf }

  /** Section 4 of RFC 3629: which second bytes may follow a lead byte. */
  predicate IsSecond(lead: Byte, b: Byte)
  {
    && IsContinuation(b)
    && (lead == 0xe0 ==> b >= 0xa0)
    && (lead == 0xed ==> b <= 0x9f)
    && (lead == 0xf0 ==> b >= 0x90)
    && (lead == 0xf4 ==> b <= 0x8f)
  }

  /** The payload bits of a byte whose marker bits amount to `marker`. */
  function Bits(b: Byte, marker: int): int { b - marker }

  /** The only character of `bytes`, when they are the encoding of one multi-byte character. */
  function DecodeOne(bytes: seq<Byte>): Option<char>
  {
    if |bytes| < 2 || Width(bytes[0]) != |bytes| || !IsSecond(bytes[0], bytes[1]) then None
    else if |bytes| == 2 then
      Some((Bits(bytes[0], 0xc0) * 64 + Bits(bytes[1], 0x80)) as char)
    else if !IsContinuation(bytes[2]) then None
    else if |bytes| == 3 then
      Some((Bits(bytes[0], 0xe0) * 4096 + Bits(bytes[1], 0x80) * 64 + Bits(bytes[2], 0x80)) as char)
    else if !IsContinuation(bytes[3]) then None
    else
      Some((Bits(bytes[0], 0xf0) * 26_2144 + Bits(bytes[1], 0x80) * 4096
            + Bits(bytes[2], 0x80) * 64 + Bits(bytes[3], 0x80)) as char)
  }

  lemma EncodedShape(c: char)
    ensures Width(Encode(c)[0]) == |Encode(c)|
    ensures forall k :: 0 < k < |Encode(c)| ==> IsContinuation(Encode(c)[k])
    ensures |Encode(c)| == 1 <==> c as int < 0x80
  {
  }

  lemma DecodeUndoesEncode(c: char)
    requires |Encode(c)| > 1
    ensures DecodeOne(Encode(c)) == Some(c)
  {
    DigitsMakeTheNumber(c as int);
  }

  lemma DigitsMakeTheNumber(n: nat)
    ensures n == n / 64 * 64 + n % 64
    ensures n == n / 4096 * 4096 + n / 64 % 64 * 64 + n % 64
    ensures n == n / 26_2144 * 26_2144 + n / 4096 % 64 * 4096 + n / 64 % 64 * 64 + n % 64
  {
    var high := n / 64;
    var top := high / 64;
    assert n / 4096 == top && n / 26_2144 == top / 64;
  }

  lemma NumberGivesItsDigits(top: nat, high: nat, middle: nat, low: nat)
    requires high < 64 && middle < 64 && low < 64
    ensures var n := ((top * 64 + high) * 64 + middle) * 64 + low;
            n % 64 == low && n / 64 % 64 == middle && n / 4096 % 64 == high && n / 26_2144 == top
            && n / 64 == (top * 64 + high) * 64 + middle && n / 4096 == top * 64 + high
  {
    var n := ((top * 64 + high) * 64 + middle) * 64 + low;
    assert n / 64 == (top * 64 + high) * 64 + middle;
    assert n / 4096 == n / 64 / 64 && n / 26_2144 == n / 4096 / 64;
  }

  lemma EncodeUndoesDecode(bytes: seq<Byte>)
    requires DecodeOne(bytes).Some?
    ensures Encode(DecodeOne(bytes).value) == bytes
  {
    if |bytes| == 2 {
      NumberGivesItsDigits(0, 0, Bits(bytes[0], 0xc0), Bits(bytes[1], 0x80));
    } else if |bytes| == 3 {
      NumberGivesItsDigits(0, Bits(bytes[0], 0xe0), Bits(bytes[1], 0x80), Bits(bytes[2], 0x80));
    } else {
      NumberGivesItsDigits(Bits(bytes[0], 0xf0), Bits(bytes[1], 0x80), Bits(bytes[2], 0x80), Bits(bytes[3], 0x80));
    }
  }

  /** The encoding is a prefix code: one character's bytes are never the start of another's. */
  lemma EncodeIsPrefixFree(c: char, x: seq<Byte>, d: char, y: seq<Byte>)
    requires Encode(c) + x == Encode(d) + y
    ensures c == d && x == y
  {
    EncodedShape(c);
    EncodedShape(d);
    assert (Encode(c) + x)[0] == (Encode(d) + y)[0];
    var n := |Encode(c)|;
    assert Encode(c) == (Encode(c) + x)[..n] == (Encode(d) + y)[..n] == Encode(d);
    assert x == (Encode(c) + x)[n..] == (Encode(d) + y)[n..] == y;
    if n > 1 {
      DecodeUndoesEncode(c);
      DecodeUndoesEncode(d);
    } else {
      assert c as int == d as int;
    }
  }

  lemma {:induction false} EncodeAllConcat(p: string, s: string)
    ensures EncodeAll(p + s) == EncodeAll(p) + EncodeAll(s)
  {
    if p == [] {
      assert p + s == s;
    } else {
      assert (p + s)[1..] == p[1..] + s;
      EncodeAllConcat(p[1..], s);
    }
  }

  lemma EncodesToNothing(w: string)
    ensures EncodeAll(w) == [] <==> w == []
  {
    if w != [] {
      assert |EncodeAll(w)| >= |Encode(w[0])|;
    }
  }

  /** Encoded words that start with an encoded prefix are words that start with that prefix. */
  lemma {:induction false} EncodedPrefixIsPrefix(p: string, rest: seq<Byte>, w: string)
    requires EncodeAll(p) + rest == EncodeAll(w)
    ensures p <= w && rest == EncodeAll(w[|p|..])
  {
    EncodesToNothing(w);
    EncodesToNothing(p);
    assert |EncodeAll(p) + rest| == |EncodeAll(p)| + |rest|;
    if p == [] {
      assert w[0..] == w;
    } else {
      assert EncodeAll(p) + rest == Encode(p[0]) + (EncodeAll(p[1..]) + rest);
      EncodeIsPrefixFree(p[0], EncodeAll(p[1..]) + rest, w[0], EncodeAll(w[1..]));
      EncodedPrefixIsPrefix(p[1..], rest, w[1..]);
      assert p == [p[0]] + p[1..] && w == [w[0]] + w[1..];
      assert w[1..][|p| - 1..] == w[|p|..];
    }
  }

  lemma EncodeAllIsInjective(v: string, w: string)
    requires EncodeAll(v) == EncodeAll(w)
    ensures v == w
  {
    EncodedPrefixIsPrefix(v, [], w);
    EncodesToNothing(w[|v|..]);
  }
}
