/** The bytes that the check for UTF-8 lets through are exactly the encodings of Unicode text. */
module FlowText {
  import opened Wrappers
  import opened Endec
  import opened FlowWire

  /** A Unicode scalar value: no surrogate. */
  type Scalar = c: nat | c <= 0x10_FFFF && !(0xD800 <= c < 0xE000)

  /** Section 3 of RFC 3629. */
  function EncodeScalar(c: Scalar): (b: Bytes)
    ensures 1 <= |b| <= 4
  {
    if c < 0x80 then [c]
    else if c < 0x800 then [0xC0 + c / 64, 0x80 + c % 64]
    else if c < 0x1_0000 then [0xE0 + c / 4096, 0x80 + c / 64 % 64, 0x80 + c % 64]
    else [0xF0 + c / 262_144, 0x80 + c / 4096 % 64, 0x80 + c / 64 % 64, 0x80 + c % 64]
  }

  function EncodeText(text: seq<Scalar>): Bytes {
    if text == [] then [] else EncodeScalar(text[0]) + EncodeText(text[1..])
  }

  lemma ScalarIsSequence(before: Bytes, c: Scalar, rest: Bytes)
    ensures var b := before + EncodeScalar(c) + rest;
            SequenceLength(b, |before|) == |EncodeScalar(c)|
  {
    var e, b, i := EncodeScalar(c), before + EncodeScalar(c) + rest, |before|;
    assert forall k :: 0 <= k < |e| ==> b[i + k] == e[k];
    LeadingByte(c);
  }

  lemma LeadingByte(c: Scalar)
    ensures 0x80 <= c < 0x800 ==> 2 <= c / 64 < 32
    ensures 0x800 <= c < 0x1_0000 ==> c / 4096 < 16 && (c / 4096 == 0 ==> c / 64 % 64 >= 32)
                                      && (c / 4096 == 13 ==> c / 64 % 64 < 32)
    ensures 0x1_0000 <= c ==> c / 262_144 < 5 && (c / 262_144 == 0 ==> c / 4096 % 64 >= 16)
                              && (c / 262_144 == 4 ==> c / 4096 % 64 < 16)
  {
  }

  lemma SequenceIsScalar(b: Bytes, i: nat) returns (c: Scalar)
    requires i < |b| && SequenceLength(b, i) > 0
    ensures b[i..i + SequenceLength(b, i)] == EncodeScalar(c)
  {
    var n := SequenceLength(b, i);
    if n == 1 {
      c := b[i];
    } else if n == 2 {
      c := TwoBytes(b[i], b[i + 1]);
    } else if n == 3 {
      c := ThreeBytes(b[i], b[i + 1], b[i + 2]);
    } else {
      c := FourByteScalar(b[i], b[i + 1], b[i + 2], b[i + 3]);
    }
  }

  lemma TwoBytes(x: nat, y: nat) returns (c: Scalar)
    requires 0xC2 <= x < 0xE0 && 0x80 <= y < 0xC0
    ensures EncodeScalar(c) == [x, y]
  {
    c := 64 * (x - 0xC0) + (y - 0x80);
  }

  lemma ThreeBytes(x: nat, y: nat, z: nat) returns (c: Scalar)
    requires 0xE0 <= x < 0xF0 && 0x80 <= y < 0xC0 && 0x80 <= z < 0xC0
    requires (x == 0xE0 ==> y >= 0xA0) && (x == 0xED ==> y < 0xA0)
    ensures EncodeScalar(c) == [x, y, z]
  {
    var high := 64 * (x - 0xE0) + (y - 0x80);
    c := 64 * high + (z - 0x80);
    assert c / 64 == high;
  }

  lemma FourByteScalar(x: nat, y: nat, z: nat, u: nat) returns (c: Scalar)
    requires 0xF0 <= x < 0xF5 && 0x80 <= y < 0xC0 && 0x80 <= z < 0xC0 && 0x80 <= u < 0xC0
    requires (x == 0xF0 ==> y >= 0x90) && (x == 0xF4 ==> y < 0x90)
    ensures EncodeScalar(c) == [x, y, z, u]
  {
    var top := 64 * (x - 0xF0) + (y - 0x80);
    var high := 64 * top + (z - 0x80);
    c := 64 * high + (u - 0x80);
    assert c / 64 == high && c / 4096 == top && c / 262_144 == x - 0xF0;
  }

  lemma {:induction false} TextFrom(b: Bytes, i: nat) returns (text: seq<Scalar>)
    requires i <= |b| && Utf8From(b, i)
    ensures b[i..] == EncodeText(text)
    decreases |b| - i
  {
    if i == |b| {
      text := [];
    } else {
      var j := i + SequenceLength(b, i);
      var c := SequenceIsScalar(b, i);
      var rest := TextFrom(b, j);
      text := [c] + rest;
      assert b[i..] == b[i..j] + b[j..];
      assert text[1..] == rest;
    }
  }

  lemma {:induction false} TextIsUtf8From(before: Bytes, text: seq<Scalar>)
    ensures Utf8From(before + EncodeText(text), |before|)
    decreases |text|
  {
    if text != [] {
      var e, rest := EncodeScalar(text[0]), EncodeText(text[1..]);
      ScalarIsSequence(before, text[0], rest);
      TextIsUtf8From(before + e, text[1..]);
      Utf8Step(before + e + rest, |before|, |e|);
      Regroup(before, e, rest);
    } else {
      assert before + [] == before;
    }
  }

  lemma Utf8Step(b: Bytes, i: nat, n: nat)
    requires i + n <= |b| && n > 0 && SequenceLength(b, i) == n && Utf8From(b, i + n)
    ensures Utf8From(b, i)
  {
  }

  lemma Regroup(a: Bytes, b: Bytes, c: Bytes)
    ensures a + (b + c) == a + b + c
  {
  }

  /** Bytes pass the check iff they encode some text. */
  lemma Utf8Iff(b: Bytes)
    ensures Utf8(b) <==> exists text :: b == EncodeText(text)
  {
    if Utf8(b) {
      var text := TextFrom(b, 0);
      assert b[0..] == b;
    }
    if text :| b == EncodeText(text) {
      TextIsUtf8From([], text);
      assert [] + EncodeText(text) == b;
    }
  }
}
