// Machine integers as ranges of the mathematical ones, and network byte order.
module Bytes {
  type byte = x: int | 0 <= x < 0x100
  type uint16 = x: int | 0 <= x < 0x1_0000
  type uint32 = x: int | 0 <= x < 0x1_0000_0000
  type uint64 = x: int | 0 <= x < 0x1_0000_0000_0000_0000

  /** A value or nothing; usable with :- */
  datatype Option<+T> = None | Some(value: T) {
    predicate IsFailure() {
      None?
    }

    function PropagateFailure<U>(): Option<U>
      requires None?
    {
      None
    }

    function Extract(): T
      requires Some?
    {
      value
    }
  }

  /** 256 to the power of width: how many values fit in width bytes. */
  function Limit(width: nat): (r: nat)
    ensures r > 0
  {
    if width == 0 then 1 else 0x100 * Limit(width - 1)
  }

  lemma LimitValues()
    ensures Limit(2) == 0x1_0000
    ensures Limit(4) == 0x1_0000_0000
    ensures Limit(8) == 0x1_0000_0000_0000_0000
  {
    assert Limit(2) == 0x100 * Limit(1);
    assert Limit(4) == 0x100 * Limit(3) == 0x1_0000 * Limit(2);
    assert Limit(6) == 0x100 * Limit(5) == 0x1_0000 * Limit(4);
    assert Limit(8) == 0x100 * Limit(7) == 0x1_0000 * Limit(6);
  }

  /** The big-endian image of x in width bytes (buffer.h: qToBigEndian). */
  function ToBigEndian(width: nat, x: nat): (s: seq<byte>)
    requires x < Limit(width)
    ensures |s| == width
  {
    if width == 0 then []
    else ToBigEndian(width - 1, x / 0x100) + [x % 0x100]
  }

  /** The number a big-endian image stands for (buffer.h: qFromBigEndian). */
  function FromBigEndian(s: seq<byte>): (x: nat)
    ensures x < Limit(|s|)
  {
    if s == [] then 0
    else 0x100 * FromBigEndian(s[..|s| - 1]) + s[|s| - 1]
  }

  lemma {:induction false} BigEndianRoundTrip(width: nat, x: nat)
    requires x < Limit(width)
    ensures FromBigEndian(ToBigEndian(width, x)) == x
  {
    if width > 0 {
      BigEndianRoundTrip(width - 1, x / 0x100);
      var s := ToBigEndian(width, x);
      assert s[..|s| - 1] == ToBigEndian(width - 1, x / 0x100);
    }
  }

  /** The most significant byte comes first: byte k counts 256 to the power width - 1 - k. */
  lemma {:induction false} BigEndianDigit(width: nat, x: nat, k: nat)
    requires x < Limit(width) && k < width
    ensures ToBigEndian(width, x)[k] == (x / Limit(width - 1 - k)) % 0x100
  {
    if k < width - 1 {
      var rest := Limit(width - 2 - k);
      BigEndianDigit(width - 1, x / 0x100, k);
      DivideTwice(x, rest);
    }
  }

  lemma DivideTwice(x: nat, b: nat)
    requires b > 0
    ensures (x / 0x100) / b == x / (0x100 * b)
  {
    var y := x / 0x100;
    var q, r := y / b, y % b;
    var product := q * b;
    assert y == product + r;
    assert q * (0x100 * b) == 0x100 * product;
    DivideIs(x, 0x100 * b, q, 0x100 * r + x % 0x100);
  }

  lemma DivideIs(x: nat, d: nat, q: nat, r: nat)
    requires d > 0 && x == q * d + r && r < d
    ensures x / d == q
  {
    var z := x / d - q;
    assert x == (x / d) * d + x % d;
    assert z * d == r - x % d;
    Multiple(z, d);
  }

  lemma Multiple(z: int, d: nat)
    ensures z >= 1 ==> z * d >= d
    ensures z <= -1 ==> z * d + d <= 0
  {
    if z >= 1 {
      assert z * d == (z - 1) * d + d;
    } else if z <= -1 {
      assert z * d == (z + 1) * d - d;
      assert (-1 - z) * d >= 0;
    }
  }

  /** The images of the two widths of lengths, addresses and ports, byte by byte. */
  lemma BigEndianBytes(x: uint32, y: uint16)
    ensures x < Limit(4) && y < Limit(2)
    ensures ToBigEndian(4, x) == [x / 0x100_0000, x / 0x1_0000 % 0x100, x / 0x100 % 0x100, x % 0x100]
    ensures ToBigEndian(2, y) == [y / 0x100, y % 0x100]
  {
    LimitValues();
    var x1 := x / 0x100;
    var x2 := x1 / 0x100;
    var x3 := x2 / 0x100;
    assert ToBigEndian(1, x3) == [x3] && ToBigEndian(1, y / 0x100) == [y / 0x100];
    assert ToBigEndian(2, x2) == [x3, x2 % 0x100];
    assert ToBigEndian(3, x1) == [x3, x2 % 0x100, x1 % 0x100];
  }

  /** memcpy from a byte string into an array. */
  method CopyInto(dest: array<byte>, at: nat, data: seq<byte>)
    requires at + |data| <= dest.Length
    modifies dest
    ensures forall k :: 0 <= k < dest.Length ==>
              dest[k] == if at <= k < at + |data| then data[k - at] else old(dest[k])
    ensures dest[at..at + |data|] == data
  {
    var i := 0;
    while i < |data|
      invariant 0 <= i <= |data|
      invariant forall k :: 0 <= k < dest.Length ==>
                  dest[k] == if at <= k < at + i then data[k - at] else old(dest[k])
    {
      dest[at + i] := data[i];
      i := i + 1;
    }
  }
}
