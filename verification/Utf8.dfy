/**
  The policy file must be UTF-8: the byte-class test of the code accepts exactly the
  concatenations of encoded Unicode scalar values (RFC 3629, sections 3 and 4).
 */
module Utf8 {
  import opened Layers

  type Scalar = x: int | 0 <= x <= 0x10FFFF && !(0xD800 <= x <= 0xDFFF)

  function Encode(c: Scalar): seq<Byte> {
    if c < 0x80 then [c]
    else if c < 0x800 then [0xC0 + c / 64, 0x80 + c % 64]
    else if c < 0x10000 then [0xE0 + c / 4096, 0x80 + c / 64 % 64, 0x80 + c % 64]
    else [0xF0 + c / 262144, 0x80 + c / 4096 % 64, 0x80 + c / 64 % 64, 0x80 + c % 64]
  }

  function EncodeAll(cs: seq<Scalar>): seq<Byte> {
    if cs == [] then [] else Encode(cs[0]) + EncodeAll(cs[1..])
  }

  ghost predicate IsText(s: seq<Byte>) {
    exists cs :: EncodeAll(cs) == s
  }

  // ----- the byte classes of the code -----

  // The number of continuation bytes that a lead byte announces; -1 for no lead byte.
  function Continuation(lead: Byte): int {
    if lead < 0x80 then 0
    else if 0xC2 <= lead <= 0xDF then 1
    else if 0xE0 <= lead <= 0xEF then 2
    else if 0xF0 <= lead <= 0xF4 then 3
    else -1
  }

  function SecondLow(lead: Byte): Byte { if lead == 0xE0 then 0xA0 else if lead == 0xF0 then 0x90 else 0x80 }

  function SecondHigh(lead: Byte): Byte { if lead == 0xED then 0x9F else if lead == 0xF4 then 0x8F else 0xBF }

  predicate StartsWell(s: seq<Byte>)
    requires s != []
  {
    var n := Continuation(s[0]);
    && 0 <= n < |s|
    && (n >= 1 ==> SecondLow(s[0]) <= s[1] <= SecondHigh(s[0]))
    && (n >= 2 ==> 0x80 <= s[2] <= 0xBF)
    && (n >= 3 ==> 0x80 <= s[3] <= 0xBF)
  }

  // The six bits of a continuation byte.
  function Tail(s: seq<Byte>, i: nat): int
    requires i < |s|
  {
    var b: int := s[i];
    b - 0x80
  }

  lemma Quotients(a: int, b: int, c: int, d: int)
    requires 0 <= b < 64 && 0 <= c < 64 && 0 <= d < 64
    ensures var v := a * 262144 + b * 4096 + c * 64 + d;
            && v / 64 == a * 4096 + b * 64 + c && v % 64 == d
            && v / 4096 == a * 64 + b && v / 262144 == a
  {
  }

  // The scalar that the bytes spell.
  function Decoded(s: seq<Byte>): Scalar
    requires s != [] && StartsWell(s)
  {
    var lead: int := s[0];
    match Continuation(s[0])
    case 0 => lead
    case 1 => (lead - 0xC0) * 64 + Tail(s, 1)
    case 2 => (lead - 0xE0) * 4096 + Tail(s, 1) * 64 + Tail(s, 2)
    case _ => (lead - 0xF0) * 262144 + Tail(s, 1) * 4096 + Tail(s, 2) * 64 + Tail(s, 3)
  }

  lemma EncodeTwo(a: int, b: int)
    requires 2 <= a < 32 && 0 <= b < 64
    ensures Encode(a * 64 + b) == [0xC0 + a, 0x80 + b]
  {
  }

  lemma EncodeThree(a: int, b: int, c: int)
    requires 0 <= a < 16 && 0 <= b < 64 && 0 <= c < 64 && (a == 0 ==> b >= 32) && (a == 13 ==> b < 32)
    ensures Encode(a * 4096 + b * 64 + c) == [0xE0 + a, 0x80 + b, 0x80 + c]
  {
    Quotients(0, a, b, c);
  }

  lemma EncodeFour(a: int, b: int, c: int, d: int)
    requires 0 <= a < 5 && 0 <= b < 64 && 0 <= c < 64 && 0 <= d < 64 && (a == 0 ==> b >= 16) && (a == 4 ==> b < 16)
    ensures Encode(a * 262144 + b * 4096 + c * 64 + d) == [0xF0 + a, 0x80 + b, 0x80 + c, 0x80 + d]
  {
    Quotients(a, b, c, d);
  }

  lemma DecodedEncodes(s: seq<Byte>)
    requires s != [] && StartsWell(s)
    ensures |Encode(Decoded(s))| == Continuation(s[0]) + 1 && Encode(Decoded(s)) <= s
  {
    var lead: int := s[0];
    match Continuation(s[0])
    case 0 =>
    case 1 => EncodeTwo(lead - 0xC0, Tail(s, 1));
    case 2 => EncodeThree(lead - 0xE0, Tail(s, 1), Tail(s, 2));
    case _ => EncodeFour(lead - 0xF0, Tail(s, 1), Tail(s, 2), Tail(s, 3));
  }

  lemma Digits(c: Scalar)
    ensures c / 4096 * 64 + c / 64 % 64 == c / 64
    ensures c / 262144 * 64 + c / 4096 % 64 == c / 4096
  {
  }

  // An encoded scalar passes the byte classes, and its bytes give it back.
  lemma EncodedStartsWell(c: Scalar, s: seq<Byte>)
    requires Encode(c) <= s
    ensures s != [] && StartsWell(s) && Decoded(s) == c
  {
    var e := Encode(c);
    assert s[0] == e[0];
    Digits(c);
    if c < 0x80 {
    } else if c < 0x800 {
      assert s[1] == e[1];
    } else if c < 0x10000 {
      assert s[1] == e[1] && s[2] == e[2];
    } else {
      assert s[1] == e[1] && s[2] == e[2] && s[3] == e[3];
    }
  }

  /** Text that starts well is text exactly when the rest is. */
  lemma TextStep(s: seq<Byte>)
    requires s != [] && StartsWell(s)
    ensures IsText(s) <==> IsText(s[Continuation(s[0]) + 1..])
  {
    var c, n := Decoded(s), Continuation(s[0]) + 1;
    DecodedEncodes(s);
    hide Decoded, StartsWell;
    if cs :| EncodeAll(cs) == s[n..] {
      assert ([c] + cs)[1..] == cs;
      assert EncodeAll([c] + cs) == Encode(c) + s[n..] == s;
    }
    if cs :| EncodeAll(cs) == s {
      EncodedStartsWell(cs[0], s);
      assert EncodeAll(cs[1..]) == s[n..];
    }
  }

  /** ... and text that does not start well is none. */
  lemma TextStartsWell(s: seq<Byte>)
    requires s != [] && IsText(s)
    ensures StartsWell(s)
  {
    var cs :| EncodeAll(cs) == s;
    EncodedStartsWell(cs[0], s);
  }

  method IsValidUtf8(text: seq<Byte>) returns (valid: bool)
    ensures valid == IsText(text)
  {
    var index := 0;
    assert text[0..] == text;
    while index < |text|
      invariant index <= |text|
      invariant IsText(text) == IsText(text[index..])
    {
      ghost var s := text[index..];
      if IsText(s) { TextStartsWell(s); }
      var lead := text[index];
      if lead < 0x80 {
        TextStep(s);
        index := index + 1;
        continue;
      }
      var continuation, secondLow, secondHigh := 0, 0x80, 0xBF;
      if 0xC2 <= lead <= 0xDF {
        continuation := 1;
      } else if 0xE0 <= lead <= 0xEF {
        continuation := 2;
        if lead == 0xE0 { secondLow := 0xA0; }
        if lead == 0xED { secondHigh := 0x9F; }
      } else if 0xF0 <= lead <= 0xF4 {
        continuation := 3;
        if lead == 0xF0 { secondLow := 0x90; }
        if lead == 0xF4 { secondHigh := 0x8F; }
      } else {
        return false;
      }
      if index + continuation >= |text| { return false; }
      var second := text[index + 1];
      if second < secondLow || second > secondHigh { return false; }
      for offset := 2 to continuation + 1
        invariant forall i | 2 <= i < offset :: 0x80 <= s[i] <= 0xBF
      {
        if text[index + offset] / 64 != 2 { return false; }
      }
      TextStep(s);
      index := index + continuation + 1;
    }
    assert EncodeAll([]) == text[index..];
    valid := true;
  }
}
