/** Machine words, byte order and the small wrapper types every other module uses. */
module Words {
  type byte = x: int | 0 <= x < 0x100
  type uint16 = x: int | 0 <= x < 0x1_0000
  type uint32 = x: int | 0 <= x < 0x1_0000_0000
  type uint64 = x: int | 0 <= x < 0x1_0000_0000_0000_0000

  datatype Option<+T> = None | Some(value: T)

  function Min(a: int, b: int): int {
    if a <= b then a else b
  }

  // ----- Byte order -----

  /** 256 to the power n. */
  function Radix(n: nat): (r: nat)
    ensures r > 0
  {
    if n == 0 then 1 else 256 * Radix(n - 1)
  }

  /** Byte i of n, counted from the least significant one. */
  function Digit(n: nat, i: nat): byte {
    if i == 0 then n % 256 else Digit(n / 256, i - 1)
  }

  /** The low `width` bytes of n as a little-endian host stores them. */
  function LittleEndian(n: nat, width: nat): (s: seq<byte>)
    ensures |s| == width
  {
    seq(width, i requires 0 <= i < width => Digit(n, i))
  }

  function FromLittleEndian(s: seq<byte>): (n: nat) {
    if s == [] then 0 else s[0] + 256 * FromLittleEndian(s[1..])
  }

  lemma LittleEndianStep(n: nat, width: nat)
    requires width > 0
    ensures LittleEndian(n, width)[0] == n % 256
    ensures LittleEndian(n, width)[1..] == LittleEndian(n / 256, width - 1)
  {
    forall i | 0 <= i < width - 1
      ensures LittleEndian(n, width)[1..][i] == LittleEndian(n / 256, width - 1)[i]
    {
      assert Digit(n, i + 1) == Digit(n / 256, i);
    }
  }

  lemma {:induction false} FromLittleEndianBound(s: seq<byte>)
    ensures FromLittleEndian(s) < Radix(|s|)
  {
    if s != [] {
      FromLittleEndianBound(s[1..]);
    }
  }

  /** Reading back what was stored gives the value, if it fits the width. */
  lemma {:induction false} DecodeEncode(n: nat, width: nat)
    requires n < Radix(width)
    ensures FromLittleEndian(LittleEndian(n, width)) == n
    decreases width
  {
    if width > 0 {
      DecodeEncode(n / 256, width - 1);
      LittleEndianStep(n, width);
    }
  }

  /** Storing what was read gives the same bytes. */
  lemma {:induction false} EncodeDecode(s: seq<byte>)
    ensures LittleEndian(FromLittleEndian(s), |s|) == s
  {
    if s != [] {
      var n := FromLittleEndian(s);
      assert n % 256 == s[0] && n / 256 == FromLittleEndian(s[1..]);
      EncodeDecode(s[1..]);
      LittleEndianStep(n, |s|);
      assert s == [s[0]] + s[1..];
      assert LittleEndian(n, |s|) == [LittleEndian(n, |s|)[0]] + LittleEndian(n, |s|)[1..];
    }
  }

  // ----- Arithmetic and sequences -----

  lemma UniqueRemainder(n: int, d: int, q: int, r: int)
    requires 0 <= r < d && n == d * q + r
    ensures n % d == r
  {
    var k := n / d - q;
    assert d * k == r - n % d;
    if k >= 1 {
      ProductAtLeast(d, k);
      assert false;
    } else if k <= -1 {
      ProductAtLeast(d, -k);
      assert false;
    }
  }

  lemma ProductAtLeast(d: int, k: int)
    requires d > 0 && k >= 1
    ensures d * k >= d
  {
  }

  lemma Split<T>(a: seq<T>, b: seq<T>)
    ensures (a + b)[..|a|] == a && (a + b)[|a|..] == b
  {
  }

  /** The buffer holds `got` followed by its old contents. */
  predicate Holds<T(==)>(buffer: seq<T>, orig: seq<T>, got: seq<T>) {
    |got| <= |orig| && buffer == got + orig[|got|..]
  }

  lemma Assoc<T>(a: seq<T>, b: seq<T>, c: seq<T>)
    ensures a + b + c == a + (b + c)
  {
  }
}
