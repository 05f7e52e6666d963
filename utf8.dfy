/** UTF-8, as `unicode.encode('utf-8')` produces it, with a decoder that
    undoes it. A `char` is a Unicode scalar value. */
module Utf8 {
  import opened Common

  /** The one to four bytes of one character. */
  function EncodeChar(c: char): (bs: Bytes)
    ensures 1 <= |bs| <= 4
    ensures |bs| == 1 <==> c as int < 0x80
    ensures bs[0] < 0x80 || 0xC0 <= bs[0] < 0xF8
    ensures forall i :: 1 <= i < |bs| ==> 0x80 <= bs[i] < 0xC0
  {
    var n := c as int;
    var q1 := n / 64;
    var q2 := q1 / 64;
    var q3 := q2 / 64;
    if n < 0x80 then [n as byte]
    else if n < 0x800 then [(0xC0 + q1) as byte, (0x80 + n % 64) as byte]
    else if n < 0x10000 then
      [(0xE0 + q2) as byte, (0x80 + q1 % 64) as byte, (0x80 + n % 64) as byte]
    else
      [(0xF0 + q3) as byte, (0x80 + q2 % 64) as byte, (0x80 + q1 % 64) as byte, (0x80 + n % 64) as byte]
  }

  /** The UTF-8 encoding of a string: its characters' bytes in order. */
  function Encode(s: string): (bs: Bytes)
    ensures |bs| >= |s|
    ensures s == [] <==> bs == []
  {
    if s == [] then [] else EncodeChar(s[0]) + Encode(s[1..])
  }

  predicate IsContinuation(b: byte) { 0x80 <= b < 0xC0 }

  predicate IsScalar(n: int) { 0 <= n < 0xD800 || 0xE000 <= n < 0x110000 }

  /** The scalar value of a leading byte and continuation bytes, `None`
      when they do not form the shortest encoding of a scalar value. */
  function Assemble(lead: int, tail: Bytes, min: int): (r: Option<char>)
    requires |tail| <= 3
  {
    if exists i :: 0 <= i < |tail| && !IsContinuation(tail[i]) then None
    else
      var n := Accumulate(lead, tail);
      if n < min || !IsScalar(n) then None else Some(n as char)
  }

  function Accumulate(acc: int, tail: Bytes): int
    decreases |tail|
  {
    if tail == [] then acc else Accumulate(acc * 64 + (tail[0] as int - 0x80), tail[1..])
  }

  /** The first character of `bs` and the number of bytes it takes. */
  function DecodeChar(bs: Bytes): (r: Option<(char, nat)>)
    requires bs != []
    ensures r.Some? ==> 1 <= r.value.1 <= |bs|
  {
    var b := bs[0] as int;
    var k := if b < 0x80 then 1 else if 0xC0 <= b < 0xE0 then 2 else if 0xE0 <= b < 0xF0 then 3
             else if 0xF0 <= b < 0xF8 then 4 else 0;
    if k == 0 || |bs| < k then None
    else if k == 1 then Some((b as char, 1))
    else
      var lead := if k == 2 then b - 0xC0 else if k == 3 then b - 0xE0 else b - 0xF0;
      var min := if k == 2 then 0x80 else if k == 3 then 0x800 else 0x10000;
      match Assemble(lead, bs[1..k], min)
      case None => None
      case Some(c) => Some((c, k))
  }

  /** Decoding: `None` when `bs` is not well-formed UTF-8. */
  function Decode(bs: Bytes): Option<string>
    decreases |bs|
  {
    if bs == [] then Some([])
    else
      match DecodeChar(bs)
      case None => None
      case Some((c, k)) =>
        match Decode(bs[k..])
        case None => None
        case Some(s) => Some([c] + s)
  }

  lemma DecodeEncodeChar(c: char, rest: Bytes)
    ensures DecodeChar(EncodeChar(c) + rest) == Some((c, |EncodeChar(c)|))
  {
    var n := c as int;
    if n < 0x80 {
      assert (EncodeChar(c) + rest)[0] == n as byte;
    } else if n < 0x800 {
      DecodeEncodeTwo(c, rest);
    } else if n < 0x10000 {
      DecodeEncodeThree(c, rest);
    } else {
      DecodeEncodeFour(c, rest);
    }
  }

  lemma DecodeEncodeTwo(c: char, rest: Bytes)
    requires 0x80 <= c as int < 0x800
    ensures DecodeChar(EncodeChar(c) + rest) == Some((c, 2))
  {
    var n := c as int;
    var last := [(0x80 + n % 64) as byte];
    var bs := EncodeChar(c) + rest;
    assert bs[0] as int - 0xC0 == n / 64 && bs[1..2] == last;
    AccumulateStep(n / 64, n, []);
    assert [(0x80 + n % 64) as byte] + [] == last;
    assert Accumulate(n / 64, last) == n;
    assert IsContinuation(last[0]);
    assert Assemble(n / 64, last, 0x80) == Some(c);
  }

  lemma DecodeEncodeThree(c: char, rest: Bytes)
    requires 0x800 <= c as int < 0x10000
    ensures DecodeChar(EncodeChar(c) + rest) == Some((c, 3))
  {
    var n := c as int;
    var q1 := n / 64;
    var last := [(0x80 + n % 64) as byte];
    var two := [(0x80 + q1 % 64) as byte] + last;
    var bs := EncodeChar(c) + rest;
    assert bs[0] as int - 0xE0 == q1 / 64 && bs[1..3] == two;
    AccumulateStep(q1, n, []);
    AccumulateStep(q1 / 64, q1, last);
    assert Assemble(q1 / 64, two, 0x800) == Some(c);
  }

  lemma DecodeEncodeFour(c: char, rest: Bytes)
    requires 0x10000 <= c as int
    ensures DecodeChar(EncodeChar(c) + rest) == Some((c, 4))
  {
    var n := c as int;
    var q1 := n / 64;
    var q2 := q1 / 64;
    var last := [(0x80 + n % 64) as byte];
    var two := [(0x80 + q1 % 64) as byte] + last;
    var three := [(0x80 + q2 % 64) as byte] + two;
    var bs := EncodeChar(c) + rest;
    assert bs[0] as int - 0xF0 == q2 / 64 && bs[1..4] == three;
    AccumulateStep(q1, n, []);
    AccumulateStep(q2, q1, last);
    AccumulateStep(q2 / 64, q2, two);
    assert Assemble(q2 / 64, three, 0x10000) == Some(c);
  }

  /** A continuation byte carrying the low six bits of `m` shifts them in
      below the value accumulated so far. */
  lemma AccumulateStep(acc: int, m: int, rest: Bytes)
    requires m >= 0
    ensures Accumulate(acc, [(0x80 + m % 64) as byte] + rest) == Accumulate(acc * 64 + m % 64, rest)
  {
    assert ([(0x80 + m % 64) as byte] + rest)[1..] == rest;
  }

  /** Decoding undoes encoding. */
  lemma {:induction false} DecodeEncode(s: string)
    ensures Decode(Encode(s)) == Some(s)
  {
    if s != [] {
      var e := EncodeChar(s[0]);
      DecodeEncodeChar(s[0], Encode(s[1..]));
      assert (e + Encode(s[1..]))[|e|..] == Encode(s[1..]);
      DecodeEncode(s[1..]);
      assert [s[0]] + s[1..] == s;
    }
  }

  /** Distinct strings have distinct encodings. */
  lemma EncodeInjective(s: string, t: string)
    requires Encode(s) == Encode(t)
    ensures s == t
  {
    DecodeEncode(s);
    DecodeEncode(t);
  }

  /** Text that is ASCII encodes to the same code units. */
  lemma {:induction false} EncodeAscii(s: string)
    requires forall i :: 0 <= i < |s| ==> s[i] as int < 0x80
    ensures |Encode(s)| == |s| && forall i :: 0 <= i < |s| ==> Encode(s)[i] as int == s[i] as int
  {
    if s != [] {
      EncodeAscii(s[1..]);
      assert Encode(s) == [s[0] as int as byte] + Encode(s[1..]);
    }
  }
}
