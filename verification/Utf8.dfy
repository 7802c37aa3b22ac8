// UTF-8 as the standard library checks it: section 3.9, table 3-7 of the
// Unicode Standard (no overlong forms, no surrogates, nothing above U+10FFFF).
module Utf8 {
  import opened Basics

  const LF: byte := 10
  const CR: byte := 13

  predicate IsTail(b: byte) {
    0x80 <= b < 0xC0
  }

  // The bits `tail` carries, appended to those read so far.
  function Join(bits: int, tail: byte): int {
    bits * 0x40 + (tail - 0x80) as int
  }

  // The first encoded scalar of `b` and how many bytes carry it.
  function First(b: Bytes): (r: Option<(Scalar, nat)>)
    ensures r.Some? ==> 1 <= r.value.1 <= 4 && r.value.1 <= |b|
  {
    if |b| == 0 then None
    else if b[0] < 0x80 then Some((b[0], 1))
    else if 0xC2 <= b[0] < 0xE0 then
      if |b| >= 2 && IsTail(b[1])
      then Some((Join(b[0] - 0xC0, b[1]), 2)) else None
    else if 0xE0 <= b[0] < 0xF0 then
      if |b| >= 3 && IsTail(b[1]) && IsTail(b[2])
         && (b[0] == 0xE0 ==> 0xA0 <= b[1]) && (b[0] == 0xED ==> b[1] < 0xA0)
      then Some((Join(Join(b[0] - 0xE0, b[1]), b[2]), 3)) else None
    else if 0xF0 <= b[0] < 0xF5 then
      if |b| >= 4 && IsTail(b[1]) && IsTail(b[2]) && IsTail(b[3])
         && (b[0] == 0xF0 ==> 0x90 <= b[1]) && (b[0] == 0xF4 ==> b[1] < 0x90)
      then Some((Join(Join(Join(b[0] - 0xF0, b[1]), b[2]), b[3]), 4))
      else None
    else None
  }

  // `str::from_utf8`: the whole of `b`, or nothing.
  function Decode(b: Bytes): Option<Text> {
    if b == [] then Some([])
    else
      var first := First(b);
      if first.None? then None
      else
        var rest := Decode(b[first.value.1..]);
        if rest.None? then None else Some([first.value.0] + rest.value)
  }

  function EncodeOne(c: Scalar): (r: Bytes)
    ensures 1 <= |r| <= 4
  {
    if c < 0x80 then [c]
    else if c < 0x800 then [0xC0 + c / 0x40, 0x80 + c % 0x40]
    else if c < 0x10000 then [0xE0 + c / 0x1000, 0x80 + c / 0x40 % 0x40, 0x80 + c % 0x40]
    else [0xF0 + c / 0x40000, 0x80 + c / 0x1000 % 0x40, 0x80 + c / 0x40 % 0x40, 0x80 + c % 0x40]
  }

  // The bytes a string is written as.
  function Encode(t: Text): Bytes {
    if t == [] then [] else EncodeOne(t[0]) + Encode(t[1..])
  }

  lemma SplitBits(c: int)
    requires 0 <= c
    ensures Join(c / 0x40, 0x80 + c % 0x40) == c
    ensures c / 0x40 / 0x40 == c / 0x1000
    ensures c / 0x1000 / 0x40 == c / 0x40000
  {
  }

  lemma FirstOfFour(c: Scalar, b: Bytes)
    requires c >= 0x10000 && |b| >= 4
    requires b[0] == 0xF0 + c / 0x40000 && b[1] == 0x80 + c / 0x1000 % 0x40
    requires b[2] == 0x80 + c / 0x40 % 0x40 && b[3] == 0x80 + c % 0x40
    ensures First(b) == Some((c, 4))
  {
    SplitBits(c);
    SplitBits(c / 0x40);
    SplitBits(c / 0x1000);
  }

  lemma FirstOfThree(c: Scalar, b: Bytes)
    requires 0x800 <= c < 0x10000 && |b| >= 3
    requires b[0] == 0xE0 + c / 0x1000 && b[1] == 0x80 + c / 0x40 % 0x40 && b[2] == 0x80 + c % 0x40
    ensures First(b) == Some((c, 3))
  {
    SplitBits(c);
    SplitBits(c / 0x40);
  }

  lemma FirstOfEncodeOne(c: Scalar, rest: Bytes)
    ensures First(EncodeOne(c) + rest) == Some((c, |EncodeOne(c)|))
  {
    var b := EncodeOne(c) + rest;
    assert forall i :: 0 <= i < |EncodeOne(c)| ==> b[i] == EncodeOne(c)[i];
    if c < 0x80 {
    } else if c < 0x800 {
      SplitBits(c);
    } else if c < 0x10000 {
      FirstOfThree(c, b);
    } else {
      FirstOfFour(c, b);
    }
  }

  // What is written reads back.
  lemma {:induction false} DecodeEncode(t: Text)
    ensures Decode(Encode(t)) == Some(t)
  {
    if t != [] {
      var head, rest := EncodeOne(t[0]), Encode(t[1..]);
      FirstOfEncodeOne(t[0], rest);
      assert (head + rest)[|head|..] == rest;
      DecodeEncode(t[1..]);
      assert Encode(t) == head + rest && Encode(t) != [];
      assert t == [t[0]] + t[1..];
    }
  }

  // What reads is written back as the same bytes: there is one form of each.
  lemma {:induction false} EncodeDecode(b: Bytes)
    requires Decode(b).Some?
    ensures Encode(Decode(b).value) == b
  {
    hide First, EncodeOne;
    if b != [] {
      var (c, n) := First(b).value;
      EncodeOfFirst(b);
      EncodeDecode(b[n..]);
      assert Decode(b).value[1..] == Decode(b[n..]).value;
      assert b == b[..n] + b[n..];
    }
  }

  lemma JoinSplits(bits: int, tail: byte)
    requires IsTail(tail)
    ensures Join(bits, tail) / 0x40 == bits && Join(bits, tail) % 0x40 == tail - 0x80
  {
  }

  lemma EncodeOfFirst(b: Bytes)
    requires First(b).Some?
    ensures EncodeOne(First(b).value.0) == b[..First(b).value.1]
  {
    var (c, n) := First(b).value;
    if n >= 2 {
      JoinSplits(b[0] - (if n == 2 then 0xC0 else if n == 3 then 0xE0 else 0xF0), b[1]);
    }
    if n >= 3 {
      JoinSplits(Join(b[0] - (if n == 3 then 0xE0 else 0xF0), b[1]), b[2]);
    }
    if n == 4 {
      JoinSplits(Join(Join(b[0] - 0xF0, b[1]), b[2]), b[3]);
    }
    SplitBits(c);
  }

  // An ASCII byte never sits inside a longer encoding, so reading across one
  // is reading the two sides apart.
  lemma {:induction false} DecodeAcross(a: Bytes, x: byte, b: Bytes)
    requires x < 0x80
    ensures Decode(a + [x] + b).Some? <==> Decode(a).Some? && Decode(b).Some?
    ensures Decode(a + [x] + b).Some? ==>
              Decode(a + [x] + b).value == Decode(a).value + [x] + Decode(b).value
  {
    var whole := a + [x] + b;
    if a == [] {
      assert whole[0] == x && whole[1..] == b;
    } else {
      assert First(whole) == First(a) by {
        assert forall i :: 0 <= i < |a| ==> whole[i] == a[i];
        assert whole[|a|] == x;
      }
      if First(a).Some? {
        var n := First(a).value.1;
        assert whole[n..] == a[n..] + [x] + b;
        DecodeAcross(a[n..], x, b);
      }
    }
  }

  // The decoder never invents or hides an ASCII character.
  lemma {:induction false} DecodeKeepsAscii(b: Bytes, x: byte)
    requires x < 0x80 && Decode(b).Some?
    ensures x in Decode(b).value <==> x in b
  {
    if b != [] {
      var n := First(b).value.1;
      DecodeKeepsAscii(b[n..], x);
      assert b == b[..n] + b[n..];
      assert x in b[..n] <==> x == First(b).value.0;
    }
  }
}
