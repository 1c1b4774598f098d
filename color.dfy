/**
 * The colour calculation a shape runs when a fill, stroke, tint, ambient,
 * specular or emissive colour is given: the colour space set by
 * colorMode(), the six argument forms of fill()-like calls, clamping,
 * scaling, the HSB sectors and the packing into an ARGB Int.
 * Floats are idealised as reals.
 */
module Color {
  import opened Base
  import opened Int32Ops
  import opened Constants

  /**
   * The shape's colour space: colorMode, colorModeX/Y/Z/A and the two
   * flags derived from them, colorModeScale and colorModeDefault.
   */
  datatype ColorSpace = ColorSpace(mode: int, maxX: real, maxY: real, maxZ: real, maxA: real,
                                   scale: bool, isDefault: bool)

  /**
   * The last calculated colour: calcR/G/B/A as fractions, calcRi/Gi/Bi/Ai
   * as Ints, calcColor packed and calcAlpha.
   */
  datatype Calc = Calc(r: real, g: real, b: real, a: real,
                       ri: int, gi: int, bi: int, ai: int,
                       color: Int32, alpha: bool)

  /** The argument forms of fill(), stroke(), tint(), ambient(), specular(), emissive(). */
  datatype ColorArg =
    | Packed(rgb: Int32)                          // fill(rgb: Int)
    | PackedAlpha(rgb: Int32, alpha: real)        // fill(rgb: Int, alpha: Float)
    | Gray(gray: real)                            // fill(gray: Float)
    | GrayAlpha(gray: real, alpha: real)          // fill(gray: Float, alpha: Float)
    | Channels(x: real, y: real, z: real)         // fill(x, y, z)
    | ChannelsAlpha(x: real, y: real, z: real, a: real)  // fill(x, y, z, a)

  /** The state of a fresh shape: every field at its Kotlin default. */
  const InitialSpace := ColorSpace(0, 0.0, 0.0, 0.0, 0.0, false, false)
  const InitialCalc := Calc(0.0, 0.0, 0.0, 0.0, 0, 0, 0, 0, 0, false)

  /** colorMode(mode, maxX, maxY, maxZ, maxA). */
  function SetColorMode(mode: int, maxX: real, maxY: real, maxZ: real, maxA: real): (cs: ColorSpace)
    ensures cs.mode == mode && cs.maxX == maxX && cs.maxY == maxY && cs.maxZ == maxZ && cs.maxA == maxA
    ensures !cs.scale <==> (maxX == 1.0 && maxY == 1.0 && maxZ == 1.0 && maxA == 1.0)
    ensures cs.isDefault <==> (mode == RGB && maxX == 255.0 && maxY == 255.0 && maxZ == 255.0 && maxA == 255.0)
  {
    ColorSpace(mode, maxX, maxY, maxZ, maxA,
               maxA != 1.0 || maxX != maxY || maxY != maxZ || maxZ != maxA,
               mode == RGB && maxA == 255.0 && maxX == 255.0 && maxY == 255.0 && maxZ == 255.0)
  }

  /** colorMode(mode, max): one range for all four elements. */
  function SetColorModeMax(mode: int, max: real): (cs: ColorSpace)
    ensures cs == SetColorMode(mode, max, max, max, max)
    ensures !cs.scale <==> max == 1.0
  {
    SetColorMode(mode, max, max, max, max)
  }

  /** First `if (v > max) v = max`, then `if (v < 0) v = 0`. */
  function Clamp(v: real, max: real): (c: real)
    ensures 0.0 <= c
    ensures max >= 0.0 ==> c <= max
    ensures 0.0 <= v <= max ==> c == v
  {
    var top := if v > max then max else v;
    if top < 0.0 then 0.0 else top
  }

  /** The Int conversions and the packing shared by the float calculations. */
  function Finish(r: real, g: real, b: real, a: real): Calc {
    var ri, gi, bi, ai := ToInt(r * 255.0), ToInt(g * 255.0), ToInt(b * 255.0), ToInt(a * 255.0);
    Calc(r, g, b, a, ri, gi, bi, ai, Pack(ai, ri, gi, bi), ai != 255)
  }

  /** colorCalc(gray, alpha). */
  function GrayCalc(cs: ColorSpace, gray: real, alpha: real): Calc
    requires cs.scale ==> cs.maxX != 0.0 && cs.maxA != 0.0
  {
    var gr, al := Clamp(gray, cs.maxX), Clamp(alpha, cs.maxA);
    var r := if cs.scale then gr / cs.maxX else gr;
    Finish(r, r, r, if cs.scale then al / cs.maxA else al)
  }

  /**
   * The HSB sector step of colorCalc(x, y, z, a) for a hue, saturation and
   * brightness already divided by their maxima; None when the sector index
   * falls outside 0..5, where the source leaves calcR/G/B as they were.
   */
  function HsbToRgb(h: real, s: real, v: real): Option<(real, real, real)> {
    if s == 0.0 then Some((v, v, v))
    else
      Sector(SectorOf(h).0, v, s, SectorOf(h).1)
  }

  /** `which = (h - h.toInt()) * 6`: the sector index `which.toInt()` and the fraction `which - which.toInt()`. */
  function SectorOf(h: real): (r: (int, real))
    ensures 0.0 <= h <= 1.0 ==> 0 <= r.0 <= 5 && 0.0 <= r.1 < 1.0
  {
    var which := (h - ToInt(h) as real) * 6.0;
    (ToInt(which), which - ToInt(which) as real)
  }

  /** `when (which.toInt())`: the channels of each of the six hue sectors, from p, q and t. */
  function Sector(k: int, v: real, s: real, f: real): Option<(real, real, real)> {
    var pqt := Pqt(v, s, f);
    Pick(k, v, pqt.0, pqt.1, pqt.2)
  }

  /** The p, q and t of the HSB step; for arguments in range they lie between p and v. */
  function Pqt(v: real, s: real, f: real): (real, real, real) {
    (v * (1.0 - s), v * (1.0 - s * f), v * (1.0 - s * (1.0 - f)))
  }

  function Pick(k: int, v: real, p: real, q: real, t: real): Option<(real, real, real)> {
    match k
    case 0 => Some((v, t, p))
    case 1 => Some((q, v, p))
    case 2 => Some((p, v, t))
    case 3 => Some((p, q, v))
    case 4 => Some((t, p, v))
    case 5 => Some((v, p, q))
    case _ => None
  }

  /** The maxima that colorCalc(x, y, z, a) divides by are non-zero. */
  predicate ChannelsDefined(cs: ColorSpace) {
    (cs.mode == RGB && cs.scale ==> cs.maxX != 0.0 && cs.maxY != 0.0 && cs.maxZ != 0.0 && cs.maxA != 0.0) &&
    (cs.mode == HSB ==> cs.maxX != 0.0 && cs.maxY != 0.0 && cs.maxZ != 0.0 && (cs.scale ==> cs.maxA != 0.0))
  }

  /**
   * The fractions calcR/G/B/A that colorCalc(x, y, z, a) computes; `prev`
   * is the calculation left by the last call.
   */
  function ChannelFractions(cs: ColorSpace, prev: Calc, x: real, y: real, z: real, a: real): (real, real, real, real)
    requires ChannelsDefined(cs)
  {
    var x, y, z, a := Clamp(x, cs.maxX), Clamp(y, cs.maxY), Clamp(z, cs.maxZ), Clamp(a, cs.maxA);
    if cs.mode == RGB then
      if cs.scale then (x / cs.maxX, y / cs.maxY, z / cs.maxZ, a / cs.maxA)
      else (x, y, z, a)
    else if cs.mode == HSB then
      var al := if cs.scale then a / cs.maxA else a;
      match HsbToRgb(x / cs.maxX, y / cs.maxY, z / cs.maxZ)
      case Some((r, g, b)) => (r, g, b, al)
      case None => (prev.r, prev.g, prev.b, al)
    else (prev.r, prev.g, prev.b, prev.a)
  }

  /** colorCalc(x, y, z, a). */
  function ChannelsCalc(cs: ColorSpace, prev: Calc, x: real, y: real, z: real, a: real): Calc
    requires ChannelsDefined(cs)
  {
    var f := ChannelFractions(cs, prev, x, y, z, a);
    Finish(f.0, f.1, f.2, f.3)
  }

  /** calcAi of colorCalcARGB(argb, alpha): the alpha byte, scaled unless alpha is colorModeA. */
  function ArgbAlpha(maxA: real, argb: Int32, alpha: real): int
    requires alpha != maxA ==> maxA != 0.0
  {
    if alpha == maxA then ByteAt(argb, 24) else Scaled(ByteAt(argb, 24), alpha, maxA)
  }

  /** `(n * (alpha / maxA)).toInt()`: a byte scaled by a ratio and truncated. */
  function Scaled(n: Byte, alpha: real, maxA: real): (r: Int32)
    requires maxA != 0.0
    ensures 0.0 <= alpha <= maxA ==> 0 <= r <= n
  {
    ScaledByteBound(n, alpha, maxA);
    ToInt(n as real * (alpha / maxA))
  }

  /** colorCalcARGB(argb, alpha), where `maxA` is colorModeA. */
  function ArgbCalc(maxA: real, argb: Int32, alpha: real): Calc
    requires alpha != maxA ==> maxA != 0.0
  {
    var ai := ArgbAlpha(maxA, argb, alpha);
    var color := if alpha == maxA then argb else Or(Shl(ai, 24), Low24(argb));
    var ri, gi, bi := ByteAt(argb, 16), ByteAt(argb, 8), ByteAt(argb, 0);
    Calc(ri as real / 255.0, gi as real / 255.0, bi as real / 255.0, ai as real / 255.0,
         ri, gi, bi, ai, color, ai != 255)
  }

  /** `rgb and 0xFF000000 == 0 && rgb <= colorModeX`: an Int read as a gray level. */
  predicate GrayInt(cs: ColorSpace, rgb: Int32) {
    0 <= rgb < 0x100_0000 && rgb as real <= cs.maxX
  }

  /** No maximum that the calculation for `arg` divides by is zero. */
  predicate Defined(cs: ColorSpace, arg: ColorArg) {
    match arg
    case Packed(rgb) =>
      if GrayInt(cs, rgb) then (cs.scale ==> cs.maxX != 0.0 && cs.maxA != 0.0) else true
    case PackedAlpha(rgb, alpha) =>
      if GrayInt(cs, rgb) then (cs.scale ==> cs.maxX != 0.0 && cs.maxA != 0.0)
      else (alpha != cs.maxA ==> cs.maxA != 0.0)
    case Gray(_) => cs.scale ==> cs.maxX != 0.0 && cs.maxA != 0.0
    case GrayAlpha(_, _) => cs.scale ==> cs.maxX != 0.0 && cs.maxA != 0.0
    case Channels(_, _, _) => ChannelsDefined(cs)
    case ChannelsAlpha(_, _, _, _) => ChannelsDefined(cs)
  }

  /** colorCalc for each argument form; a missing alpha is colorModeA. */
  function Calculate(cs: ColorSpace, prev: Calc, arg: ColorArg): Calc
    requires Defined(cs, arg)
  {
    match arg
    case Packed(rgb) =>
      if GrayInt(cs, rgb) then GrayCalc(cs, rgb as real, cs.maxA) else ArgbCalc(cs.maxA, rgb, cs.maxA)
    case PackedAlpha(rgb, alpha) =>
      if GrayInt(cs, rgb) then GrayCalc(cs, rgb as real, alpha) else ArgbCalc(cs.maxA, rgb, alpha)
    case Gray(gray) => GrayCalc(cs, gray, cs.maxA)
    case GrayAlpha(gray, alpha) => GrayCalc(cs, gray, alpha)
    case Channels(x, y, z) => ChannelsCalc(cs, prev, x, y, z, cs.maxA)
    case ChannelsAlpha(x, y, z, a) => ChannelsCalc(cs, prev, x, y, z, a)
  }

  // ---------------------------------------------------------------------
  // Properties

  /** A fraction in 0..1 scales to an Int in 0..255. */
  lemma UnitToByte(v: real)
    requires 0.0 <= v <= 1.0
    ensures 0 <= ToInt(v * 255.0) <= 255
  {
  }

  /** Finish of four fractions packs four bytes that ByteAt reads back. */
  lemma {:induction false} FinishBytes(r: real, g: real, b: real, a: real)
    requires 0.0 <= r <= 1.0 && 0.0 <= g <= 1.0 && 0.0 <= b <= 1.0 && 0.0 <= a <= 1.0
    ensures var c := Finish(r, g, b, a);
      0 <= c.ri <= 255 && 0 <= c.gi <= 255 && 0 <= c.bi <= 255 && 0 <= c.ai <= 255 &&
      ToWord(c.color) == Word(c.ai, c.ri, c.gi, c.bi) && c.alpha == (c.ai != 255)
  {
    UnitToByte(r); UnitToByte(g); UnitToByte(b); UnitToByte(a);
    var c := Finish(r, g, b, a);
    PackBytes(c.ai, c.ri, c.gi, c.bi);
  }

  /**
   * HSB: for hue, saturation and brightness in 0..1 a sector is always
   * found, every channel lies in 0..1, the largest channel is the
   * brightness and the smallest is brightness * (1 - saturation).
   */
  lemma {:induction false} HsbChannels(h: real, s: real, v: real)
    requires 0.0 <= h <= 1.0 && 0.0 <= s <= 1.0 && 0.0 <= v <= 1.0
    ensures 0.0 <= v * (1.0 - s)
    ensures HsbToRgb(h, s, v).Some? && Spans(HsbToRgb(h, s, v).value, v * (1.0 - s), v)
  {
    MulBetween(v, 1.0 - s);
    if s != 0.0 {
      SectorOrder(SectorOf(h).0, v, s, SectorOf(h).1);
      assert Pqt(v, s, SectorOf(h).1).0 == v * (1.0 - s);
    }
  }

  /** A brightness scaled by a weight in 0..1 stays in 0..brightness. */
  lemma MulBetween(v: real, w: real)
    requires 0.0 <= v && 0.0 <= w <= 1.0
    ensures 0.0 <= v * w <= v
  {
  }

  /** Every channel lies in lo..hi, and some channel is hi and some is lo. */
  predicate Spans(c: (real, real, real), lo: real, hi: real) {
    lo <= c.0 <= hi && lo <= c.1 <= hi && lo <= c.2 <= hi &&
    (c.0 == hi || c.1 == hi || c.2 == hi) && (c.0 == lo || c.1 == lo || c.2 == lo)
  }

  /** Every sector places v, p and one of q or t, so its channels span p..v. */
  lemma SectorOrder(k: int, v: real, s: real, f: real)
    requires 0 <= k <= 5 && 0.0 <= s <= 1.0 && 0.0 <= v <= 1.0 && 0.0 <= f < 1.0
    ensures Sector(k, v, s, f).Some? && Spans(Sector(k, v, s, f).value, Pqt(v, s, f).0, v)
  {
    var pqt := Pqt(v, s, f);
    HsbParts(v, s, f);
    PickSpans(k, v, pqt.0, pqt.1, pqt.2);
  }

  lemma PickSpans(k: int, v: real, p: real, q: real, t: real)
    requires 0 <= k <= 5 && p <= q <= v && p <= t <= v
    ensures Pick(k, v, p, q, t).Some? && Spans(Pick(k, v, p, q, t).value, p, v)
  {
  }

  /** The p, q and t of the HSB step lie between v * (1 - s) and v, and p is the lower end. */
  lemma HsbParts(v: real, s: real, f: real)
    requires 0.0 <= s <= 1.0 && 0.0 <= v <= 1.0 && 0.0 <= f < 1.0
    ensures var r := Pqt(v, s, f); r.0 == v * (1.0 - s) && 0.0 <= r.0 <= r.1 <= v && r.0 <= r.2 <= v
  {
    var p, q, t := v * (1.0 - s), v * (1.0 - s * f), v * (1.0 - s * (1.0 - f));
    assert 0.0 <= s * f <= s;
    assert 0.0 <= s * (1.0 - f) <= s;
    assert v * (1.0 - s) <= v * (1.0 - s * f) <= v * 1.0;
    assert v * (1.0 - s) <= v * (1.0 - s * (1.0 - f)) <= v * 1.0;
    assert 0.0 <= (1.0 - s) * v;
  }

  /**
   * colorCalc of a gray level or of three or four channels, in RGB or HSB
   * with positive maxima, gives channels in 0..255 and packs exactly those
   * bytes into calcColor.
   */
  lemma {:induction false} ChannelBytes(cs: ColorSpace, prev: Calc, arg: ColorArg)
    requires cs.maxX > 0.0 && cs.maxY > 0.0 && cs.maxZ > 0.0 && cs.maxA > 0.0
    requires cs.mode == RGB || cs.mode == HSB
    requires !cs.scale ==> cs.maxX == 1.0 && cs.maxY == 1.0 && cs.maxZ == 1.0 && cs.maxA == 1.0
    requires arg.Gray? || arg.GrayAlpha? || arg.Channels? || arg.ChannelsAlpha?
    ensures var c := Calculate(cs, prev, arg);
      0 <= c.ri <= 255 && 0 <= c.gi <= 255 && 0 <= c.bi <= 255 && 0 <= c.ai <= 255 &&
      ToWord(c.color) == Word(c.ai, c.ri, c.gi, c.bi)
  {
    var c := Calculate(cs, prev, arg);
    match arg {
      case Gray(gray) => GrayBytes(cs, gray, cs.maxA);
      case GrayAlpha(gray, alpha) => GrayBytes(cs, gray, alpha);
      case Channels(x, y, z) => ChannelsBytes(cs, prev, x, y, z, cs.maxA);
      case ChannelsAlpha(x, y, z, a) => ChannelsBytes(cs, prev, x, y, z, a);
    }
  }

  /**
   * The clamp colorCalc applies before scaling keeps every input in
   * 0..max, so each fraction handed on is in 0..1.
   */
  lemma UnitFrac(v: real, max: real, scale: bool)
    requires max > 0.0 && (!scale ==> max == 1.0)
    ensures var c := Clamp(v, max); 0.0 <= (if scale then c / max else c) <= 1.0
  {
  }

  lemma {:induction false} GrayBytes(cs: ColorSpace, gray: real, alpha: real)
    requires cs.maxX > 0.0 && cs.maxA > 0.0
    requires !cs.scale ==> cs.maxX == 1.0 && cs.maxA == 1.0
    ensures var c := GrayCalc(cs, gray, alpha);
      0 <= c.ri <= 255 && 0 <= c.ai <= 255 && c.ri == c.gi == c.bi &&
      ToWord(c.color) == Word(c.ai, c.ri, c.gi, c.bi)
  {
    UnitFrac(gray, cs.maxX, cs.scale);
    UnitFrac(alpha, cs.maxA, cs.scale);
    var gr, al := Clamp(gray, cs.maxX), Clamp(alpha, cs.maxA);
    var r := if cs.scale then gr / cs.maxX else gr;
    FinishBytes(r, r, r, if cs.scale then al / cs.maxA else al);
  }

  lemma {:induction false} ChannelsBytes(cs: ColorSpace, prev: Calc, x: real, y: real, z: real, a: real)
    requires cs.maxX > 0.0 && cs.maxY > 0.0 && cs.maxZ > 0.0 && cs.maxA > 0.0
    requires cs.mode == RGB || cs.mode == HSB
    requires !cs.scale ==> cs.maxX == 1.0 && cs.maxY == 1.0 && cs.maxZ == 1.0 && cs.maxA == 1.0
    ensures var c := ChannelsCalc(cs, prev, x, y, z, a);
      0 <= c.ri <= 255 && 0 <= c.gi <= 255 && 0 <= c.bi <= 255 && 0 <= c.ai <= 255 &&
      ToWord(c.color) == Word(c.ai, c.ri, c.gi, c.bi)
  {
    FractionsInUnit(cs, prev, x, y, z, a);
    var f := ChannelFractions(cs, prev, x, y, z, a);
    FinishBytes(f.0, f.1, f.2, f.3);
  }

  /** With positive maxima, RGB and HSB fractions all lie in 0..1. */
  lemma {:induction false} FractionsInUnit(cs: ColorSpace, prev: Calc, x: real, y: real, z: real, a: real)
    requires cs.maxX > 0.0 && cs.maxY > 0.0 && cs.maxZ > 0.0 && cs.maxA > 0.0
    requires cs.mode == RGB || cs.mode == HSB
    requires !cs.scale ==> cs.maxX == 1.0 && cs.maxY == 1.0 && cs.maxZ == 1.0 && cs.maxA == 1.0
    ensures var f := ChannelFractions(cs, prev, x, y, z, a);
      0.0 <= f.0 <= 1.0 && 0.0 <= f.1 <= 1.0 && 0.0 <= f.2 <= 1.0 && 0.0 <= f.3 <= 1.0
  {
    var cx, cy, cz := Clamp(x, cs.maxX), Clamp(y, cs.maxY), Clamp(z, cs.maxZ);
    UnitFrac(x, cs.maxX, cs.scale); UnitFrac(y, cs.maxY, cs.scale);
    UnitFrac(z, cs.maxZ, cs.scale); UnitFrac(a, cs.maxA, cs.scale);
    if cs.mode == HSB {
      HsbChannels(cx / cs.maxX, cy / cs.maxY, cz / cs.maxZ);
    }
  }

  /**
   * An Int colour with a non-zero alpha byte, or above colorModeX, passes
   * through unchanged when no alpha is given, and its channel Ints are its
   * bytes.
   */
  lemma {:induction false} PackedPassesThrough(cs: ColorSpace, prev: Calc, rgb: Int32)
    requires !GrayInt(cs, rgb)
    ensures var c := Calculate(cs, prev, Packed(rgb));
      c.color == rgb && c.ai == ByteAt(rgb, 24) && c.ri == ByteAt(rgb, 16) &&
      c.gi == ByteAt(rgb, 8) && c.bi == ByteAt(rgb, 0) && c.alpha == (ByteAt(rgb, 24) != 255)
  {
  }

  /** An Int that reads as a gray level gives three equal channels, in fractions and in Ints. */
  lemma PackedGray(cs: ColorSpace, prev: Calc, rgb: Int32)
    requires GrayInt(cs, rgb) && Defined(cs, Packed(rgb))
    ensures var c := Calculate(cs, prev, Packed(rgb));
      c.r == c.g == c.b && c.ri == c.gi == c.bi && c == GrayCalc(cs, rgb as real, cs.maxA)
  {
  }

  /** In HSB mode a saturation clamped to 0 gives R = G = B = the brightness fraction. */
  lemma HsbGray(cs: ColorSpace, prev: Calc, x: real, y: real, z: real, a: real)
    requires cs.mode == HSB && ChannelsDefined(cs) && y <= 0.0
    ensures var f := ChannelFractions(cs, prev, x, y, z, a);
      f.0 == f.1 == f.2 == Clamp(z, cs.maxZ) / cs.maxZ
  {
  }

  /**
   * With an explicit alpha other than colorModeA, the ARGB path keeps the
   * colour's low three bytes and puts the low eight bits of calcAi on top,
   * for any alpha: colorCalcARGB does not clamp, so an alpha above
   * colorModeA wraps. In range, calcAi is the scaled byte, never larger.
   */
  lemma {:induction false} AlphaReplaced(maxA: real, rgb: Int32, alpha: real)
    requires alpha != maxA && maxA != 0.0
    ensures var c := ArgbCalc(maxA, rgb, alpha);
      && ToWord(c.color) == ToWord(rgb).(b3 := c.ai % 256)
      && (0.0 <= alpha <= maxA ==> 0 <= c.ai <= ByteAt(rgb, 24) && ToWord(c.color).b3 == c.ai)
  {
    var c := ArgbCalc(maxA, rgb, alpha);
    var ai := ArgbAlpha(maxA, rgb, alpha);
    assert c.ai == ai && c.color == Or(Shl(ai, 24), Low24(rgb));
    AlphaOverride(ai, rgb);
    if 0.0 <= alpha <= maxA {
      assert 0 <= ai <= ByteAt(rgb, 24);
      DivisionUnique(ai, 0, ai);
    }
  }

  /**
   * `fill(0xFFFF0000.toInt(), 300f)` under colorModeA 255: calcAi is 300,
   * and `300 shl 24` leaves 0x2C as the alpha byte of an otherwise red colour.
   */
  lemma AlphaWraps()
    ensures var c := ArgbCalc(255.0, -0x1_0000, 300.0);
      c.ai == 300 && ToWord(c.color) == Word(0x2C, 0xFF, 0, 0)
  {
    var red := -0x1_0000;
    assert ToWord(red) == Word(0xFF, 0xFF, 0, 0);
    assert ByteAt(red, 24) == 255;
    assert 255.0 * (300.0 / 255.0) == 300.0;
    assert Scaled(255, 300.0, 255.0) == 300;
    assert ArgbAlpha(255.0, red, 300.0) == 300;
    AlphaReplaced(255.0, red, 300.0);
    DivisionUnique(300, 1, 0x2C);
  }

  /** A byte scaled by a fraction in 0..1 and truncated stays between 0 and the byte. */
  lemma ScaledByteBound(n: int, alpha: real, maxA: real)
    requires 0 <= n <= 255 && maxA != 0.0
    ensures 0.0 <= alpha <= maxA ==> 0 <= ToInt(n as real * (alpha / maxA)) <= n
  {
    if 0.0 <= alpha <= maxA {
      assert 0.0 <= alpha / maxA <= 1.0;
      ScaledToInt(n, alpha / maxA);
    }
  }

  lemma ScaledToInt(n: int, frac: real)
    requires 0 <= n <= 255 && 0.0 <= frac <= 1.0
    ensures 0 <= ToInt(n as real * frac) <= n
  {
    MulBetween(n as real, frac);
    var x := n as real * frac;
    assert n <= 255;
    assert n as real <= 255.0;
    assert x <= n as real;
    assert 0.0 <= x <= 255.0;
    var k := ToInt(x);
    assert k == x.Floor;
    assert k as real <= x;
  }

  /** A whole number of 255ths scales back to itself. */
  lemma WholeFraction(n: Byte)
    ensures ToInt(n as real / 255.0 * 255.0) == n
  {
    assert n as real / 255.0 * 255.0 == n as real;
  }

  /** Four whole numbers of 255ths finish as exactly those bytes. */
  lemma FinishWhole(r: Byte, g: Byte, b: Byte, a: Byte)
    ensures var c := Finish(r as real / 255.0, g as real / 255.0, b as real / 255.0, a as real / 255.0);
      c.ri == r && c.gi == g && c.bi == b && c.ai == a && c.color == Pack(a, r, g, b)
  {
    WholeFraction(r); WholeFraction(g); WholeFraction(b); WholeFraction(a);
  }

  /**
   * In the default colour space (RGB, every maximum 255) whole-number
   * channels come out as the bytes of the packed colour.
   */
  lemma {:induction false} DefaultSpaceRoundTrip(prev: Calc, r: Byte, g: Byte, b: Byte, a: Byte)
    ensures Calculate(SetColorModeMax(RGB, 255.0), prev,
                      ChannelsAlpha(r as real, g as real, b as real, a as real)).color == Pack(a, r, g, b)
  {
    DefaultChannels(prev, r as real, g as real, b as real, a as real);
    FinishWhole(r, g, b, a);
  }

  /** In the default colour space channels already in 0..255 are divided by 255 and finished. */
  lemma DefaultChannels(prev: Calc, r: real, g: real, b: real, a: real)
    requires 0.0 <= r <= 255.0 && 0.0 <= g <= 255.0 && 0.0 <= b <= 255.0 && 0.0 <= a <= 255.0
    ensures Calculate(SetColorModeMax(RGB, 255.0), prev, ChannelsAlpha(r, g, b, a))
         == Finish(r / 255.0, g / 255.0, b / 255.0, a / 255.0)
  {
    var cs := SetColorModeMax(RGB, 255.0);
    assert cs.scale && ChannelsDefined(cs);
    assert ChannelFractions(cs, prev, r, g, b, a) == (r / 255.0, g / 255.0, b / 255.0, a / 255.0);
  }

  /** In the default colour space a whole-number gray level is opaque gray. */
  lemma {:induction false} DefaultSpaceGray(prev: Calc, g: Byte)
    ensures Calculate(SetColorModeMax(RGB, 255.0), prev, Gray(g as real)).color == Pack(255, g, g, g)
  {
    DefaultGray(prev, g as real);
    FinishWhole(g, g, g, 255);
  }

  /** In the default colour space a gray level in 0..255 is divided by 255 and finished, opaque. */
  lemma DefaultGray(prev: Calc, g: real)
    requires 0.0 <= g <= 255.0
    ensures Calculate(SetColorModeMax(RGB, 255.0), prev, Gray(g)) == Finish(g / 255.0, g / 255.0, g / 255.0, 255.0 / 255.0)
  {
    var cs := SetColorModeMax(RGB, 255.0);
    assert cs.scale && cs.maxX == 255.0 && cs.maxA == 255.0;
  }
}
