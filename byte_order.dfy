/** ToLittleEndian of the data types exercise: reverse the bytes of an
    unsigned value of 2, 4 or 8 bytes with a counted shift loop. A value of
    width w is a number below 256^w; its bytes are listed lowest first. */
module ByteOrder {

  function Pow256(n: nat): (r: nat)
    ensures r > 0
  {
    if n == 0 then 1 else 256 * Pow256(n - 1)
  }

  lemma {:induction false} Pow256Grows(m: nat, n: nat)
    requires m <= n
    ensures Pow256(m) <= Pow256(n)
  {
    if m < n {
      Pow256Grows(m, n - 1);
    }
  }

  predicate IsByte(b: int)
  {
    0 <= b < 256
  }

  predicate AllBytes(s: seq<int>)
  {
    forall k :: 0 <= k < |s| ==> IsByte(s[k])
  }

  /** The w bytes of v, lowest first. */
  function Bytes(v: nat, w: nat): (s: seq<int>)
    ensures |s| == w && AllBytes(s)
  {
    if w == 0 then [] else [v % 256] + Bytes(v / 256, w - 1)
  }

  /** The number whose bytes, lowest first, are s. */
  function Value(s: seq<int>): nat
    requires AllBytes(s)
  {
    if s == [] then 0 else s[0] + 256 * Value(s[1..])
  }

  function Reverse(s: seq<int>): (r: seq<int>)
    ensures |r| == |s|
    ensures forall k :: 0 <= k < |s| ==> r[k] == s[|s| - 1 - k]
  {
    if s == [] then [] else Reverse(s[1..]) + [s[0]]
  }

  /** The value with the bytes of v in the opposite order. */
  function Swapped(v: nat, w: nat): nat
  {
    Value(Reverse(Bytes(v, w)))
  }

  lemma {:induction false} ValueBound(s: seq<int>)
    requires AllBytes(s)
    ensures Value(s) < Pow256(|s|)
  {
    if s != [] {
      ValueBound(s[1..]);
    }
  }

  /** Reading the bytes of v back gives v, when v fits in w bytes. */
  lemma {:induction false} ValueOfBytes(v: nat, w: nat)
    requires v < Pow256(w)
    ensures Value(Bytes(v, w)) == v
  {
    if w > 0 {
      ValueOfBytes(v / 256, w - 1);
      assert Bytes(v, w)[1..] == Bytes(v / 256, w - 1);
    }
  }

  /** Taking the bytes of a value gives back the bytes it was made from. */
  lemma {:induction false} BytesOfValue(s: seq<int>)
    requires AllBytes(s)
    ensures Bytes(Value(s), |s|) == s
  {
    if s != [] {
      BytesOfValue(s[1..]);
      assert (s[0] + 256 * Value(s[1..])) / 256 == Value(s[1..]);
    }
  }

  lemma ReverseBytes(s: seq<int>)
    requires AllBytes(s)
    ensures AllBytes(Reverse(s))
  {
  }

  lemma ReverseReverse(s: seq<int>)
    ensures Reverse(Reverse(s)) == s
  {
    assert forall k :: 0 <= k < |s| ==> Reverse(Reverse(s))[k] == s[k];
  }

  /** Byte k of the result is byte w-1-k of the input. */
  lemma SwappedBytes(v: nat, w: nat)
    ensures Swapped(v, w) < Pow256(w)
    ensures Bytes(Swapped(v, w), w) == Reverse(Bytes(v, w))
    ensures forall k :: 0 <= k < w ==> Bytes(Swapped(v, w), w)[k] == Bytes(v, w)[w - 1 - k]
  {
    ReverseBytes(Bytes(v, w));
    ValueBound(Reverse(Bytes(v, w)));
    BytesOfValue(Reverse(Bytes(v, w)));
  }

  /** Swapping twice gives back the original value. */
  lemma SwappedTwice(v: nat, w: nat)
    requires v < Pow256(w)
    ensures Swapped(Swapped(v, w), w) == v
  {
    SwappedBytes(v, w);
    ReverseReverse(Bytes(v, w));
    ValueOfBytes(v, w);
  }

  /** The value with all w bytes 0xFF is 256^w - 1. */
  lemma {:induction false} AllOnesValue(w: nat)
    ensures Value(seq(w, _ => 255)) == Pow256(w) - 1
  {
    if w > 0 {
      assert seq(w, _ => 255)[1..] == seq(w - 1, _ => 255);
      AllOnesValue(w - 1);
    }
  }

  lemma {:induction false} ZeroValue(w: nat)
    ensures Value(seq(w, _ => 0)) == 0
  {
    if w > 0 {
      assert seq(w, _ => 0)[1..] == seq(w - 1, _ => 0);
      ZeroValue(w - 1);
    }
  }

  /** 0 and the all-ones value are their own byte reversal at every width. */
  lemma FixedPoints(w: nat)
    ensures Swapped(0, w) == 0
    ensures Swapped(Pow256(w) - 1, w) == Pow256(w) - 1
  {
    var zeros: seq<int> := seq(w, _ => 0);
    ZeroValue(w);
    BytesOfValue(zeros);
    assert Reverse(zeros) == zeros;
    var ones: seq<int> := seq(w, _ => 255);
    AllOnesValue(w);
    BytesOfValue(ones);
    assert Reverse(ones) == ones;
  }

  /** A value given by its bytes swaps to the value of the reversed bytes. */
  lemma SwappedValue(s: seq<int>)
    requires AllBytes(s)
    ensures Swapped(Value(s), |s|) == Value(Reverse(s))
  {
    BytesOfValue(s);
  }

  /** `res << 8` in the width's type: the bits shifted past the top are dropped. */
  function ShiftLeft8(res: nat, w: nat): nat
  {
    (res * 256) % Pow256(w)
  }

  /** Shifting a value of i < w bytes left by 8 loses nothing. */
  lemma ShiftFits(res: nat, i: nat, w: nat)
    requires res < Pow256(i) && i < w
    ensures ShiftLeft8(res, w) == res * 256
  {
    Pow256Grows(i + 1, w);
    var m := Pow256(w);
    var x := res * 256;
    assert x < Pow256(i + 1) <= m;
    ModSmall(x, m);
  }

  lemma ModSmall(x: nat, m: nat)
    requires x < m
    ensures x % m == x
  {
  }

  /** ToLittleEndian: w rounds, each moving the low byte of val into the
      bottom of res. */
  method ToLittleEndian(value: nat, w: nat) returns (res: nat)
    requires value < Pow256(w)
    ensures res == Swapped(value, w) && res < Pow256(w)
  {
    ghost var bytes := Bytes(value, w);
    ValueOfBytes(value, w);
    var val := value;
    res := 0;
    for i := 0 to w
      invariant val == Value(bytes[i..])
      invariant res == Value(Reverse(bytes[..i])) && res < Pow256(i)
    {
      assert bytes[i..][1..] == bytes[i + 1..];
      ShiftFits(res, i, w);
      assert bytes[..i + 1] == bytes[..i] + [bytes[i]];
      assert Reverse(bytes[..i + 1]) == [bytes[i]] + Reverse(bytes[..i]) by {
        assert Reverse(bytes[..i + 1])[1..] == Reverse(bytes[..i]);
      }
      // The low byte of res << 8 is clear, so the | adds val & 0xFF.
      res := ShiftLeft8(res, w) + val % 256;
      val := val / 256;
    }
    assert bytes[..w] == bytes;
  }

  /** Each suffix of a byte list is its first byte plus 256 times the rest. */
  lemma ValueSuffixes(s: seq<int>)
    requires AllBytes(s)
    ensures Value(s[|s|..]) == 0
    ensures forall k :: 0 <= k < |s| ==> Value(s[k..]) == s[k] + 256 * Value(s[k + 1..])
  {
    assert s[|s|..] == [];
    forall k | 0 <= k < |s|
      ensures Value(s[k..]) == s[k] + 256 * Value(s[k + 1..])
    {
      assert s[k..][1..] == s[k + 1..];
    }
  }

  /** A test vector: the value whose bytes, lowest first, are s swaps to
      the value whose bytes are s reversed. */
  lemma Vector(s: seq<int>, v: nat, r: nat)
    requires AllBytes(s) && Value(s) == v && Value(Reverse(s)) == r
    ensures v < Pow256(|s|) && Swapped(v, |s|) == r
  {
    ValueBound(s);
    SwappedValue(s);
  }

  /** The first uint16 test vector. */
  method TestVector16() returns (r: nat)
    ensures r == 0x0201
  {
    var s := [0x02, 0x01];
    assert Reverse(s) == [0x01, 0x02];
    ValueSuffixes(s);
    ValueSuffixes(Reverse(s));
    Vector(s, 0x0102, 0x0201);
    r := ToLittleEndian(0x0102, 2);
  }

  /** The second uint16 test vector. */
  method TestVector16b() returns (r: nat)
    ensures r == 0xF00F
  {
    var s := [0xF0, 0x0F];
    assert Reverse(s) == [0x0F, 0xF0];
    ValueSuffixes(s);
    ValueSuffixes(Reverse(s));
    Vector(s, 0x0FF0, 0xF00F);
    r := ToLittleEndian(0x0FF0, 2);
  }

  /** A 4-byte value given by its bytes b0 (lowest) to b3 swaps to the value
      with b3 lowest. */
  lemma Vector4(b0: int, b1: int, b2: int, b3: int)
    requires IsByte(b0) && IsByte(b1) && IsByte(b2) && IsByte(b3)
    ensures b0 + 0x100 * b1 + 0x1_0000 * b2 + 0x100_0000 * b3 < Pow256(4)
    ensures Swapped(b0 + 0x100 * b1 + 0x1_0000 * b2 + 0x100_0000 * b3, 4)
      == b3 + 0x100 * b2 + 0x1_0000 * b1 + 0x100_0000 * b0
  {
    var s := [b0, b1, b2, b3];
    var l := [b3, b2, b1, b0];
    assert Reverse(s) == l;
    Value4(s);
    Value4(l);
    Vector(s, Value(s), Value(l));
  }

  lemma Value4(s: seq<int>)
    requires |s| == 4 && AllBytes(s)
    ensures Value(s) == s[0] + 0x100 * s[1] + 0x1_0000 * s[2] + 0x100_0000 * s[3]
  {
    ValueSuffixes(s);
    assert Value(s[3..]) == s[3];
    assert Value(s[2..]) == s[2] + 0x100 * s[3];
    assert Value(s[1..]) == s[1] + 0x100 * s[2] + 0x1_0000 * s[3];
  }

  /** The uint32 test vector. */
  method TestVector32() returns (r: nat)
    ensures r == 0x0403_0201
  {
    Vector4(0x04, 0x03, 0x02, 0x01);
    r := ToLittleEndian(0x0102_0304, 4);
  }

  /** Reading an 8-byte list one suffix at a time, from the top byte down. */
  lemma Value8(s: seq<int>)
    requires |s| == 8 && AllBytes(s)
    ensures Value(s) == s[0] + 0x100 * s[1] + 0x1_0000 * s[2] + 0x100_0000 * s[3]
      + 0x1_0000_0000 * s[4] + 0x100_0000_0000 * s[5] + 0x1_0000_0000_0000 * s[6]
      + 0x100_0000_0000_0000 * s[7]
  {
    ValueSuffixes(s);
    assert Value(s[7..]) == s[7];
    assert Value(s[6..]) == s[6] + 0x100 * s[7];
    assert Value(s[5..]) == s[5] + 0x100 * s[6] + 0x1_0000 * s[7];
    assert Value(s[4..]) == s[4] + 0x100 * s[5] + 0x1_0000 * s[6] + 0x100_0000 * s[7];
    assert Value(s[3..]) == s[3] + 0x100 * s[4] + 0x1_0000 * s[5] + 0x100_0000 * s[6]
      + 0x1_0000_0000 * s[7];
    assert Value(s[2..]) == s[2] + 0x100 * s[3] + 0x1_0000 * s[4] + 0x100_0000 * s[5]
      + 0x1_0000_0000 * s[6] + 0x100_0000_0000 * s[7];
    assert Value(s[1..]) == s[1] + 0x100 * s[2] + 0x1_0000 * s[3] + 0x100_0000 * s[4]
      + 0x1_0000_0000 * s[5] + 0x100_0000_0000 * s[6] + 0x1_0000_0000_0000 * s[7];
  }

  /** The value of the bytes b0 (lowest) to b7. */
  function Value8Of(b0: int, b1: int, b2: int, b3: int, b4: int, b5: int, b6: int, b7: int): int
  {
    b0 + 0x100 * b1 + 0x1_0000 * b2 + 0x100_0000 * b3 + 0x1_0000_0000 * b4
      + 0x100_0000_0000 * b5 + 0x1_0000_0000_0000 * b6 + 0x100_0000_0000_0000 * b7
  }

  /** An 8-byte value given by its bytes b0 (lowest) to b7 swaps to the value
      with b7 lowest. */
  lemma Vector8(b0: int, b1: int, b2: int, b3: int, b4: int, b5: int, b6: int, b7: int)
    requires IsByte(b0) && IsByte(b1) && IsByte(b2) && IsByte(b3)
    requires IsByte(b4) && IsByte(b5) && IsByte(b6) && IsByte(b7)
    ensures Value8Of(b0, b1, b2, b3, b4, b5, b6, b7) < Pow256(8)
    ensures Swapped(Value8Of(b0, b1, b2, b3, b4, b5, b6, b7), 8) == Value8Of(b7, b6, b5, b4, b3, b2, b1, b0)
  {
    var s := [b0, b1, b2, b3, b4, b5, b6, b7];
    var l := [b7, b6, b5, b4, b3, b2, b1, b0];
    assert Reverse(s) == l;
    Value8(s);
    Value8(l);
    assert Value(s) == Value8Of(b0, b1, b2, b3, b4, b5, b6, b7);
    assert Value(l) == Value8Of(b7, b6, b5, b4, b3, b2, b1, b0);
    Vector(s, Value(s), Value(l));
  }

  lemma Vector64()
    ensures 0x0102_0304_0506_0708 < Pow256(8)
    ensures Swapped(0x0102_0304_0506_0708, 8) == 0x0807_0605_0403_0201
  {
    Vector8(0x08, 0x07, 0x06, 0x05, 0x04, 0x03, 0x02, 0x01);
    assert Value8Of(0x08, 0x07, 0x06, 0x05, 0x04, 0x03, 0x02, 0x01) == 0x0102_0304_0506_0708;
    assert Value8Of(0x01, 0x02, 0x03, 0x04, 0x05, 0x06, 0x07, 0x08) == 0x0807_0605_0403_0201;
  }

  /** The uint64 test vector. */
  method TestVector64() returns (r: nat)
    ensures r == 0x0807_0605_0403_0201
  {
    Vector64();
    r := ToLittleEndian(0x0102_0304_0506_0708, 8);
  }
}
