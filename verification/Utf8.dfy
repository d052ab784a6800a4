/** UTF-8 as section 3 of RFC 3629 defines it: the decoder of one scalar and the text input's encoder. */
module Utf8 {
  import opened Basics

  type Bytes = seq<Byte>

  /** A decoded scalar and the number of bytes it took. */
  datatype Decoded = Decoded(scalar: nat, size: nat)

  predicate Scalar(c: nat) {
    c <= 0x10FFFF && !(0xD800 <= c <= 0xDFFF)
  }

  predicate Continuation(b: Byte) {
    0x80 <= b < 0xC0
  }

  /** The bytes a lead byte announces, 0 for a byte that cannot lead, and the bits it carries. */
  function LeadSize(b: Byte): nat {
    if b < 0x80 then 1 else if 0xC2 <= b <= 0xDF then 2 else if 0xE0 <= b <= 0xEF then 3
    else if 0xF0 <= b <= 0xF4 then 4 else 0
  }

  function LeadBits(b: Byte): nat {
    match LeadSize(b)
    case 1 => b
    case 2 => b % 32
    case 3 => b % 16
    case _ => b % 8
  }

  /** Six more bits for each continuation byte. */
  function Joined(bits: nat, more: Bytes): nat {
    if more == [] then bits else Joined(bits, more[..|more| - 1]) * 64 + more[|more| - 1] % 64
  }

  /** fplinux_utf8_next: the first scalar, or nothing for empty or invalid bytes. */
  function Next(text: Bytes): Option<Decoded> {
    if text == [] then None
    else
      var size := LeadSize(text[0]);
      if size == 0 || |text| < size || exists i :: 1 <= i < size && !Continuation(text[i]) then None
      else
        var c := Joined(LeadBits(text[0]), text[1..size]);
        if (size == 3 && c < 0x800) || (size == 4 && c < 0x10000) || !Scalar(c) then None
        else Some(Decoded(c, size))
  }

  /** Every byte belongs to a scalar. */
  predicate Valid(text: Bytes)
    decreases |text|
  {
    text == [] || match Next(text) case None => false case Some(d) => 0 < d.size <= |text| && Valid(text[d.size..])
  }

  /** fplinux_text_input_encode_utf8; no bytes for a value that is not a scalar. */
  function Encode(c: nat): Bytes {
    if !Scalar(c) then []
    else if c < 0x80 then [c]
    else if c < 0x800 then [0xC0 + c / 64, 0x80 + c % 64]
    else if c < 0x10000 then [0xE0 + c / 4096, 0x80 + c / 64 % 64, 0x80 + c % 64]
    else [0xF0 + c / 262144, 0x80 + c / 4096 % 64, 0x80 + c / 64 % 64, 0x80 + c % 64]
  }

  lemma Sixes(c: nat)
    ensures c / 4096 == c / 64 / 64 && c / 262144 == c / 64 / 64 / 64
    ensures c == c / 64 * 64 + c % 64
    ensures c / 64 == c / 4096 * 64 + c / 64 % 64
    ensures c / 4096 == c / 262144 * 64 + c / 4096 % 64
  {
  }

  lemma OneMore(bits: nat, a: Byte)
    ensures Joined(bits, [a]) == bits * 64 + a % 64
  {
    assert [a][..0] == [];
  }

  lemma TwoMore(bits: nat, a: Byte, b: Byte)
    ensures Joined(bits, [a, b]) == (bits * 64 + a % 64) * 64 + b % 64
  {
    OneMore(bits, a);
    assert [a, b][..1] == [a];
  }

  lemma ThreeMore(bits: nat, a: Byte, b: Byte, c: Byte)
    ensures Joined(bits, [a, b, c]) == ((bits * 64 + a % 64) * 64 + b % 64) * 64 + c % 64
  {
    TwoMore(bits, a, b);
    assert [a, b, c][..2] == [a, b];
  }

  /** The bits of an encoding, put together again. */
  lemma EncodedBits(c: nat)
    requires Scalar(c)
    ensures var e := Encode(c);
            && |e| == LeadSize(e[0]) && (forall i :: 1 <= i < |e| ==> Continuation(e[i]))
            && Joined(LeadBits(e[0]), e[1..]) == c
  {
    if c < 0x80 {
      assert Encode(c)[1..] == [];
    } else if c < 0x800 {
      EncodedBitsOfTwo(c);
    } else if c < 0x10000 {
      EncodedBitsOfThree(c);
    } else {
      EncodedBitsOfFour(c);
    }
  }

  lemma EncodedBitsOfTwo(c: nat)
    requires 0x80 <= c < 0x800
    ensures LeadSize(0xC0 + c / 64) == 2 && Joined(LeadBits(0xC0 + c / 64), Encode(c)[1..]) == c
  {
    assert Encode(c)[1..] == [0x80 + c % 64];
    OneMore(c / 64, 0x80 + c % 64);
  }

  lemma EncodedBitsOfThree(c: nat)
    requires 0x800 <= c < 0x10000 && Scalar(c)
    ensures LeadSize(0xE0 + c / 4096) == 3 && Joined(LeadBits(0xE0 + c / 4096), Encode(c)[1..]) == c
  {
    var x, y: Byte := 0x80 + c / 64 % 64, 0x80 + c % 64;
    assert Encode(c)[1..] == [x, y];
    assert c / 4096 <= 15;
    LeadOfThree(c / 4096);
    TwoMore(c / 4096, x, y);
    TailByte(c / 64);
    TailByte(c);
    Sixes(c);
  }

  lemma TailByte(n: nat)
    ensures (0x80 + n % 64) % 64 == n % 64
  {
  }

  lemma LeadOfThree(bits: nat)
    requires bits <= 15
    ensures LeadSize(0xE0 + bits) == 3 && LeadBits(0xE0 + bits) == bits
  {
  }

  lemma LeadOfFour(bits: nat)
    requires bits <= 4
    ensures LeadSize(0xF0 + bits) == 4 && LeadBits(0xF0 + bits) == bits
  {
  }

  lemma FourSixes(c: nat)
    ensures ((c / 262144 * 64 + c / 4096 % 64) * 64 + c / 64 % 64) * 64 + c % 64 == c
  {
    Sixes(c);
  }

  lemma EncodedBitsOfFour(c: nat)
    requires 0x10000 <= c <= 0x10FFFF
    ensures LeadSize(0xF0 + c / 262144) == 4 && Joined(LeadBits(0xF0 + c / 262144), Encode(c)[1..]) == c
  {
    var x, y, z: Byte := 0x80 + c / 4096 % 64, 0x80 + c / 64 % 64, 0x80 + c % 64;
    assert Encode(c)[1..] == [x, y, z];
    assert c / 262144 <= 4;
    LeadOfFour(c / 262144);
    ThreeMore(c / 262144, x, y, z);
    TailByte(c / 4096);
    TailByte(c / 64);
    TailByte(c);
    FourSixes(c);
  }

  /** What is encoded decodes to the same scalar, whatever follows. */
  lemma DecodingInvertsEncoding(c: nat, rest: Bytes)
    requires Scalar(c)
    ensures Next(Encode(c) + rest) == Some(Decoded(c, |Encode(c)|))
  {
    EncodedBits(c);
    var e := Encode(c);
    var text := e + rest;
    assert text[1..|e|] == e[1..];
    assert forall i :: 1 <= i < |e| ==> text[i] == e[i];
  }

  lemma SplitOfTwo(lead: Byte, a: Byte)
    requires LeadSize(lead) == 2 && Continuation(a)
    ensures Encode(lead % 32 * 64 + a % 64) == [lead, a]
  {
  }

  lemma ContinuationParts(a: Byte)
    requires Continuation(a)
    ensures a == 0x80 + a % 64
  {
  }

  lemma LeadParts(lead: Byte)
    ensures LeadSize(lead) == 3 ==> lead == 0xE0 + lead % 16
    ensures LeadSize(lead) == 4 ==> lead == 0xF0 + lead % 8
  {
  }

  lemma SixBits(high: nat, low: nat)
    requires low < 64
    ensures (high * 64 + low) / 64 == high && (high * 64 + low) % 64 == low
  {
  }

  lemma SplitOfThree(lead: Byte, a: Byte, b: Byte)
    requires LeadSize(lead) == 3 && Continuation(a) && Continuation(b)
    requires var c := (lead % 16 * 64 + a % 64) * 64 + b % 64; Scalar(c) && c >= 0x800
    ensures Encode((lead % 16 * 64 + a % 64) * 64 + b % 64) == [lead, a, b]
  {
    var high := lead % 16 * 64 + a % 64;
    var c := high * 64 + b % 64;
    SixBits(lead % 16, a % 64);
    SixBits(high, b % 64);
    Sixes(c);
    LeadParts(lead);
    ContinuationParts(a);
    ContinuationParts(b);
  }

  lemma SplitOfFour(lead: Byte, a: Byte, b: Byte, d: Byte)
    requires LeadSize(lead) == 4 && Continuation(a) && Continuation(b) && Continuation(d)
    requires var c := ((lead % 8 * 64 + a % 64) * 64 + b % 64) * 64 + d % 64; Scalar(c) && c >= 0x10000
    ensures Encode(((lead % 8 * 64 + a % 64) * 64 + b % 64) * 64 + d % 64) == [lead, a, b, d]
  {
    var top := lead % 8 * 64 + a % 64;
    var high := top * 64 + b % 64;
    var c := high * 64 + d % 64;
    SixBits(lead % 8, a % 64);
    SixBits(top, b % 64);
    SixBits(high, d % 64);
    Sixes(c);
    LeadParts(lead);
    ContinuationParts(a);
    ContinuationParts(b);
    ContinuationParts(d);
  }

  /** The encoding of the bits that a well-formed sequence of this size carries. */
  lemma SplitBits(lead: Byte, more: Bytes)
    requires LeadSize(lead) == |more| + 1 && (forall i :: 0 <= i < |more| ==> Continuation(more[i]))
    requires var c := Joined(LeadBits(lead), more);
             Scalar(c) && (|more| == 2 ==> c >= 0x800) && (|more| == 3 ==> c >= 0x10000)
    ensures Encode(Joined(LeadBits(lead), more)) == [lead] + more
  {
    if |more| == 0 {
      assert more == [];
    } else if |more| == 1 {
      assert more == [more[0]];
      SplitBitsOfTwo(lead, more[0]);
    } else if |more| == 2 {
      assert more == [more[0], more[1]];
      SplitBitsOfThree(lead, more[0], more[1]);
    } else if |more| == 3 {
      assert more == [more[0], more[1], more[2]];
      SplitBitsOfFour(lead, more[0], more[1], more[2]);
    }
  }

  lemma SplitBitsOfTwo(lead: Byte, a: Byte)
    requires LeadSize(lead) == 2 && Continuation(a)
    ensures Encode(Joined(LeadBits(lead), [a])) == [lead, a]
  {
    OneMore(LeadBits(lead), a);
    SplitOfTwo(lead, a);
  }

  lemma SplitBitsOfThree(lead: Byte, a: Byte, b: Byte)
    requires LeadSize(lead) == 3 && Continuation(a) && Continuation(b)
    requires var c := Joined(LeadBits(lead), [a, b]); Scalar(c) && c >= 0x800
    ensures Encode(Joined(LeadBits(lead), [a, b])) == [lead, a, b]
  {
    TwoMore(LeadBits(lead), a, b);
    SplitOfThree(lead, a, b);
  }

  lemma SplitBitsOfFour(lead: Byte, a: Byte, b: Byte, d: Byte)
    requires LeadSize(lead) == 4 && Continuation(a) && Continuation(b) && Continuation(d)
    requires var c := Joined(LeadBits(lead), [a, b, d]); Scalar(c) && c >= 0x10000
    ensures Encode(Joined(LeadBits(lead), [a, b, d])) == [lead, a, b, d]
  {
    ThreeMore(LeadBits(lead), a, b, d);
    SplitOfFour(lead, a, b, d);
  }

  /** What decodes is the encoding of its scalar: no scalar has a second form. */
  lemma EncodingInvertsDecoding(text: Bytes)
    requires Next(text).Some?
    ensures var d := Next(text).value;
            Scalar(d.scalar) && d.size <= |text| && text[..d.size] == Encode(d.scalar)
  {
    var size := LeadSize(text[0]);
    var more := text[1..size];
    assert forall i :: 0 <= i < |more| ==> more[i] == text[i + 1];
    assert forall i :: 1 <= i < size ==> Continuation(text[i]);
    SplitBits(text[0], more);
    assert text[..size] == [text[0]] + more;
  }

  /** A text of encoded scalars is valid. */
  lemma EncodedIsValid(c: nat, rest: Bytes)
    requires Scalar(c) && Valid(rest)
    ensures Valid(Encode(c) + rest)
  {
    DecodingInvertsEncoding(c, rest);
    assert (Encode(c) + rest)[|Encode(c)|..] == rest;
  }
}
