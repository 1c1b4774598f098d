/**
 * Kotlin's 32-bit Int operators used by the colour code: `shl`, `shr`,
 * `and`, `or`, and the Float-to-Int conversion.  Values are `int`s in the
 * signed 32-bit range.  Every shift in the shape code moves whole bytes,
 * so a bit pattern is taken apart into its four bytes (a Word) and the
 * operators work byte by byte.
 */
module Int32Ops {
  import opened Base

  const Two32: int := 0x1_0000_0000

  /** A 32-bit pattern as its bytes, most significant first. */
  datatype Word = Word(b3: Byte, b2: Byte, b1: Byte, b0: Byte)

  /** The 32-bit pattern of an integer, read unsigned. */
  function U32(x: int): (r: nat)
    ensures r < Two32
  {
    x % Two32
  }

  /** Reads a 32-bit pattern as a signed two's-complement Int. */
  function Signed(u: nat): Int32 requires u < Two32 {
    if u < 0x8000_0000 then u else u - Two32
  }

  function ToWord(x: int): Word {
    var u0 := U32(x);
    var u1 := u0 / 256;
    var u2 := u1 / 256;
    Word((u2 / 256) % 256, u2 % 256, u1 % 256, u0 % 256)
  }

  /** The unsigned value of a Word. */
  function Unsigned(w: Word): (u: nat)
    ensures u < Two32
  {
    ((w.b3 * 256 + w.b2) * 256 + w.b1) * 256 + w.b0
  }

  function FromWord(w: Word): Int32 {
    Signed(Unsigned(w))
  }

  /** A shift amount that moves whole bytes. */
  predicate ByteShift(n: nat) { n == 0 || n == 8 || n == 16 || n == 24 }

  /** `x shl n`: the pattern shifted left, high bytes dropped. */
  function Shl(x: int, n: nat): Int32 requires ByteShift(n) {
    var w := ToWord(x);
    FromWord(
      if n == 0 then w
      else if n == 8 then Word(w.b2, w.b1, w.b0, 0)
      else if n == 16 then Word(w.b1, w.b0, 0, 0)
      else Word(w.b0, 0, 0, 0))
  }

  /** `(c shr n) and 0xFF`: the byte of `c` that starts at bit `n`. */
  function ByteAt(c: int, n: nat): Byte requires ByteShift(n) {
    var w := ToWord(c);
    if n == 0 then w.b0 else if n == 8 then w.b1 else if n == 16 then w.b2 else w.b3
  }

  /** Bitwise or of the low `n` bits of two values. */
  function OrBits(x: nat, y: nat, n: nat): nat {
    if n == 0 then 0
    else (if x % 2 == 1 || y % 2 == 1 then 1 else 0) + 2 * OrBits(x / 2, y / 2, n - 1)
  }

  function OrByte(x: Byte, y: Byte): Byte {
    OrBitsBound(x, y, 8);
    OrBits(x, y, 8)
  }

  /** `x or y` on Int, byte by byte. */
  function Or(x: int, y: int): Int32 {
    var v, w := ToWord(x), ToWord(y);
    FromWord(Word(OrByte(v.b3, w.b3), OrByte(v.b2, w.b2), OrByte(v.b1, w.b1), OrByte(v.b0, w.b0)))
  }

  /** `x and 0xFFFFFF`: the low three bytes. */
  function Low24(x: int): (r: nat)
    ensures r < 0x100_0000
  {
    U32(x) % 0x100_0000
  }

  /** `a shl 24 or (r shl 16) or (g shl 8) or b`, the packing of a colour. */
  function Pack(a: int, r: int, g: int, b: int): Int32 {
    Or(Or(Or(Shl(a, 24), Shl(r, 16)), Shl(g, 8)), b)
  }

  /**
   * Kotlin's `Float.toInt()`: truncation toward zero, saturating at the
   * ends of the Int range.
   */
  function ToInt(x: real): (r: Int32)
    ensures -2147483648.0 < x < 2147483647.0 && x >= 0.0 ==> r as real <= x < r as real + 1.0
    ensures -2147483648.0 < x < 2147483647.0 && x < 0.0 ==> r as real - 1.0 < x <= r as real
    ensures x >= 2147483647.0 ==> r == 0x7FFF_FFFF
    ensures x <= -2147483648.0 ==> r == -0x8000_0000
  {
    if x >= 2147483647.0 then 0x7FFF_FFFF
    else if x <= -2147483648.0 then -0x8000_0000
    else if x >= 0.0 then x.Floor
    else -((-x).Floor)
  }

  function Pow2(n: nat): nat { if n == 0 then 1 else 2 * Pow2(n - 1) }

  lemma {:induction false} OrBitsBound(x: nat, y: nat, n: nat)
    ensures OrBits(x, y, n) < Pow2(n)
  {
    if n > 0 { OrBitsBound(x / 2, y / 2, n - 1); }
  }

  lemma {:induction false} OrBitsZero(x: nat, n: nat)
    requires x < Pow2(n)
    ensures OrBits(x, 0, n) == x && OrBits(0, x, n) == x
  {
    if n > 0 { OrBitsZero(x / 2, n - 1); }
  }

  lemma OrByteZero(x: Byte)
    ensures OrByte(x, 0) == x && OrByte(0, x) == x
  {
    assert Pow2(8) == 256;
    OrBitsZero(x, 8);
  }

  lemma UnsignedOfWord(x: int)
    ensures Unsigned(ToWord(x)) == U32(x)
  {
    var u0 := U32(x);
    var w := ToWord(x);
    var u1 := u0 / 256;
    var u2 := u1 / 256;
    assert w.b0 == u0 % 256 && w.b1 == u1 % 256 && w.b2 == u2 % 256 && w.b3 == (u2 / 256) % 256;
    assert u0 == u1 * 256 + w.b0;
    assert u1 == u2 * 256 + w.b1;
    assert u2 < 0x1_0000;
    assert u2 == w.b3 * 256 + w.b2;
  }

  lemma WordOfInt(x: Int32)
    ensures FromWord(ToWord(x)) == x
  {
    UnsignedOfWord(x);
    assert U32(x) == if x >= 0 then x else x + Two32;
  }

  lemma IntOfWord(w: Word)
    ensures ToWord(FromWord(w)) == w
  {
    var u2 := w.b3 * 256 + w.b2;
    var u1 := u2 * 256 + w.b1;
    var u0 := u1 * 256 + w.b0;
    assert U32(FromWord(w)) == u0;
    assert u0 / 256 == u1 && u0 % 256 == w.b0;
    assert u1 / 256 == u2 && u1 % 256 == w.b1;
    assert u2 / 256 == w.b3 && u2 % 256 == w.b2;
  }

  /** A byte's 32-bit word has three zero upper bytes and the byte itself at the bottom. */
  lemma ByteWord(a: Byte)
    ensures ToWord(a) == Word(0, 0, 0, a)
  {
    IntOfWord(Word(0, 0, 0, a));
  }

  /** Packing four channels in 0..255 keeps each one readable with ByteAt. */
  lemma {:induction false} PackBytes(a: Byte, r: Byte, g: Byte, b: Byte)
    ensures ToWord(Pack(a, r, g, b)) == Word(a, r, g, b)
    ensures ByteAt(Pack(a, r, g, b), 24) == a && ByteAt(Pack(a, r, g, b), 16) == r
    ensures ByteAt(Pack(a, r, g, b), 8) == g && ByteAt(Pack(a, r, g, b), 0) == b
  {
    OrByteZero(a); OrByteZero(r); OrByteZero(g); OrByteZero(b); OrByteZero(0);
    ByteWord(a); ByteWord(r); ByteWord(g); ByteWord(b);
    var A, R, G := Shl(a, 24), Shl(r, 16), Shl(g, 8);
    assert A == FromWord(Word(a, 0, 0, 0));
    assert R == FromWord(Word(0, r, 0, 0));
    assert G == FromWord(Word(0, 0, g, 0));
    IntOfWord(Word(a, 0, 0, 0)); IntOfWord(Word(0, r, 0, 0)); IntOfWord(Word(0, 0, g, 0));
    var AR := Or(A, R);
    assert AR == FromWord(Word(a, r, 0, 0));
    IntOfWord(Word(a, r, 0, 0));
    var ARG := Or(AR, G);
    assert ARG == FromWord(Word(a, r, g, 0));
    IntOfWord(Word(a, r, g, 0));
    assert Or(ARG, b) == FromWord(Word(a, r, g, b));
    IntOfWord(Word(a, r, g, b));
  }

  /** Any Int is the packing of its own four bytes. */
  lemma {:induction false} UnpackPack(c: Int32)
    ensures Pack(ByteAt(c, 24), ByteAt(c, 16), ByteAt(c, 8), ByteAt(c, 0)) == c
  {
    var w := ToWord(c);
    PackBytes(w.b3, w.b2, w.b1, w.b0);
    WordOfInt(c);
    assert ToWord(Pack(w.b3, w.b2, w.b1, w.b0)) == w;
    WordOfInt(Pack(w.b3, w.b2, w.b1, w.b0));
  }

  /**
   * `a shl 24 or (y and 0xFFFFFF)`, as the ARGB alpha override builds it:
   * the top byte becomes the low eight bits of a, whatever a is.
   */
  lemma AlphaOverride(a: int, y: int)
    ensures ToWord(Or(Shl(a, 24), Low24(y))) == ToWord(y).(b3 := a % 256)
    ensures a == ByteAt(y, 24) ==> Or(Shl(a, 24), Low24(y)) == Signed(U32(y))
  {
    var w := ToWord(y);
    LowWord(y);
    HighWord(a);
    OrByteZero(a % 256); OrByteZero(w.b2); OrByteZero(w.b1); OrByteZero(w.b0);
    assert Or(Shl(a, 24), Low24(y)) == FromWord(Word(a % 256, w.b2, w.b1, w.b0));
    IntOfWord(Word(a % 256, w.b2, w.b1, w.b0));
    UnsignedOfWord(y);
  }

  /** `y and 0xFFFFFF` keeps the low three bytes of y and clears the top one. */
  lemma LowWord(y: int)
    ensures var w := ToWord(y); ToWord(Low24(y)) == Word(0, w.b2, w.b1, w.b0)
  {
    var w := ToWord(y);
    UnsignedOfWord(y);
    var low := Word(0, w.b2, w.b1, w.b0);
    assert Low24(y) == Unsigned(low);
    assert FromWord(low) == Low24(y);
    IntOfWord(low);
  }

  /** `a shl 24` puts the low eight bits of a on top and drops the rest. */
  lemma HighWord(a: int)
    ensures ToWord(Shl(a, 24)) == Word(a % 256, 0, 0, 0)
  {
    LowByte(a);
    IntOfWord(Word(a % 256, 0, 0, 0));
  }

  /** The lowest byte of an Int's pattern is the value modulo 256. */
  lemma LowByte(a: int)
    ensures ToWord(a).b0 == a % 256
  {
    var u := U32(a);
    var q := a / Two32;
    var t := q * 0x100_0000 + u / 256;
    assert a == q * Two32 + u;
    assert u == (u / 256) * 256 + u % 256;
    assert a == t * 256 + u % 256;
    DivisionUnique(a, t, u % 256);
  }

  /** Euclidean division by 256 has one quotient and one remainder. */
  lemma DivisionUnique(a: int, t: int, m: int)
    requires a == t * 256 + m && 0 <= m < 256
    ensures a % 256 == m
  {
  }
}
