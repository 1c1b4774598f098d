/**
 * The growable arrays behind a shape and the field stores on its vertex
 * records. A vertex record (a FloatArray) is a row of reals; a slot of
 * the `vertices` array holds a row or null. The per-vertex colour setters
 * store the bytes of a packed colour as fractions of 255, one field at a
 * time, and the getters read them back and pack them again.
 */
module VertexStore {
  import opened Base
  import opened Constants
  import opened Int32Ops
  import opened Color
  import opened Paths

  /**
   * PApplet.expand(list): a copy twice as long (one slot for an empty
   * array) whose new slots hold the element type's default.
   */
  function Grown<T>(s: seq<T>, filler: T): (r: seq<T>)
    ensures |r| == (if |s| == 0 then 1 else 2 * |s|) && r[..|s|] == s
    ensures forall k :: |s| <= k < |r| ==> r[k] == filler
  {
    s + seq(if |s| == 0 then 1 else |s|, _ => filler)
  }

  /** The stores a setter makes on one vertex: field offset and value, in program order. */
  type Writes = seq<(nat, real)>

  /** `vertices!![i]!![f] = v`. */
  function Write(rows: Rows, i: int, f: nat, v: real): (r: Result<Rows>)
    ensures r.Ok? <==> 0 <= i < |rows| && rows[i].Some? && f < |rows[i].value|
    ensures r.Ok? ==> |r.value| == |rows| && r.value[i] == Some(rows[i].value[f := v])
    ensures r.Ok? ==> forall k :: 0 <= k < |rows| && k != i ==> r.value[k] == rows[k]
    ensures r.Throws? ==> r.error == (if 0 <= i < |rows| && rows[i].None? then NullPointer else IndexOutOfBounds)
  {
    if i < 0 || i >= |rows| then Throws(IndexOutOfBounds)
    else match rows[i]
      case None => Throws(NullPointer)
      case Some(row) => if f < |row| then Ok(rows[i := Some(row[f := v])]) else Throws(IndexOutOfBounds)
  }

  /** The stores of `writes` on vertex i, in order; the first one that throws ends them. */
  function WriteAll(rows: Rows, i: int, writes: Writes): (r: (Rows, Outcome))
    ensures |r.0| == |rows|
    decreases |writes|
  {
    if writes == [] then (rows, Returned)
    else match Write(rows, i, writes[0].0, writes[0].1)
      case Throws(e) => (rows, Raised(e))
      case Ok(next) => WriteAll(next, i, writes[1..])
  }

  /**
   * A per-vertex setter called for vertices 0 until n: an index past the
   * array only warns, a throw ends the loop.
   */
  function Sweep(rows: Rows, n: nat, writes: Writes): (r: (Rows, Outcome))
    ensures |r.0| == |rows|
  {
    if n == 0 then (rows, Returned)
    else
      var prev := Sweep(rows, n - 1, writes);
      if prev.1.Raised? || n - 1 >= |prev.0| then prev
      else WriteAll(prev.0, n - 1, writes)
  }

  /**
   * A per-vertex setter past its phase and style checks: a missing array
   * or an index at or past the capacity only warns; otherwise the stores.
   */
  function Touched(rows: Option<Rows>, i: int, writes: Writes): (r: (Option<Rows>, Outcome))
    ensures r.0.Some? == rows.Some? && (rows.Some? ==> |r.0.value| == |rows.value|)
  {
    if rows.None? || i >= |rows.value| then (rows, Returned)
    else
      var w := WriteAll(rows.value, i, writes);
      (Some(w.0), w.1)
  }

  /** setVertex() and setNormal(): the stores through `vertices!!`, which throws on a missing array. */
  function Assigned(rows: Option<Rows>, i: int, writes: Writes): (r: (Option<Rows>, Outcome))
    ensures r.0.Some? == rows.Some? && (rows.Some? ==> |r.0.value| == |rows.value|)
  {
    if rows.None? then (rows, Raised(NullPointer))
    else
      var w := WriteAll(rows.value, i, writes);
      (Some(w.0), w.1)
  }

  const NoZ := "Cannot set a z-coordinate on a 2D shape"

  /**
   * setVertex(index, vec): x and y, then z on a row of more than two
   * fields; a row of two refuses a non-zero z.
   */
  function VectorSet(rows: Option<Rows>, i: int, x: real, y: real, z: real): (Option<Rows>, Outcome) {
    var a := Assigned(rows, i, [(X, x), (Y, y)]);
    if a.1.Raised? then a
    else if 0 <= i < |a.0.value| && a.0.value[i].Some? && |a.0.value[i].value| > 2 then Assigned(a.0, i, [(Z, z)])
    else if z != 0.0 then (a.0, Raised(IllegalArgument(NoZ)))
    else a
  }

  /** A sweeping setter's loop, run only when there is an array. */
  function Swept(rows: Option<Rows>, n: nat, writes: Writes): (r: (Option<Rows>, Outcome))
    ensures r.0.Some? == rows.Some? && (rows.Some? ==> |r.0.value| == |rows.value|)
  {
    if rows.None? then (rows, Returned)
    else
      var s := Sweep(rows.value, n, writes);
      (Some(s.0), s.1)
  }

  /** `(c shr n and 0xFF) / 255.0f`. */
  function Fraction(c: Int32, n: nat): real
    requires ByteShift(n)
  {
    ByteAt(c, n) as real / 255.0
  }

  /** setFill(i, c), setTint(i, c), setStroke(i, c): alpha first, then red, green, blue. */
  function ArgbWrites(c: Int32, fa: nat, fr: nat, fg: nat, fb: nat): Writes {
    [(fa, Fraction(c, 24)), (fr, Fraction(c, 16)), (fg, Fraction(c, 8)), (fb, Fraction(c, 0))]
  }

  /** setAmbient(i, c), setSpecular(i, c), setEmissive(i, c): red, green, blue; no alpha. */
  function RgbWrites(c: Int32, fr: nat, fg: nat, fb: nat): Writes {
    [(fr, Fraction(c, 16)), (fg, Fraction(c, 8)), (fb, Fraction(c, 0))]
  }

  /** Whether vertex i exists and has field f. */
  predicate Has(rows: Rows, i: int, f: nat) {
    0 <= i < |rows| && rows[i].Some? && f < |rows[i].value|
  }

  /** What a failed read of vertex i throws: NPE for a null row, IOOBE for any index or field out of range. */
  function ReadError(rows: Rows, i: int): Exception {
    if 0 <= i < |rows| && rows[i].None? then NullPointer else IndexOutOfBounds
  }

  /** `vertices!![i]!![f]`; a negative index throws as well. */
  function Field(rows: Rows, i: int, f: nat): (r: Result<real>)
    ensures r.Ok? <==> Has(rows, i, f)
    ensures r.Ok? ==> r.value == rows[i].value[f]
    ensures r.Throws? ==> r.error == ReadError(rows, i)
  {
    if i < 0 then Throws(IndexOutOfBounds) else Coord(rows, i, f)
  }

  /** `(vertices!![i]!![f] * 255).toInt()`. */
  function Channel(rows: Rows, i: int, f: nat): (r: Result<Int32>)
    ensures r.Ok? <==> Has(rows, i, f)
    ensures r.Throws? ==> r.error == ReadError(rows, i)
  {
    match Field(rows, i, f)
    case Throws(e) => Throws(e)
    case Ok(v) => Ok(ToInt(v * 255.0))
  }

  /** `a shl 24 or (r shl 16) or (g shl 8) or b` over the fields fa, fr, fg, fb of vertex i. */
  function ArgbAt(rows: Rows, i: int, fa: nat, fr: nat, fg: nat, fb: nat): (r: Result<Int32>)
    ensures r.Ok? <==> Has(rows, i, fa) && Has(rows, i, fr) && Has(rows, i, fg) && Has(rows, i, fb)
    ensures r.Throws? ==> r.error == ReadError(rows, i)
  {
    match Channel(rows, i, fa)
    case Throws(e) => Throws(e)
    case Ok(a) =>
      match Channel(rows, i, fr)
      case Throws(e) => Throws(e)
      case Ok(r) =>
        match Channel(rows, i, fg)
        case Throws(e) => Throws(e)
        case Ok(g) =>
          match Channel(rows, i, fb)
          case Throws(e) => Throws(e)
          case Ok(b) => Ok(Pack(a, r, g, b))
  }

  /** `-0x1000000 or (r shl 16) or (g shl 8) or b` over the fields fr, fg, fb of vertex i. */
  function OpaqueAt(rows: Rows, i: int, fr: nat, fg: nat, fb: nat): (r: Result<Int32>)
    ensures r.Ok? <==> Has(rows, i, fr) && Has(rows, i, fg) && Has(rows, i, fb)
    ensures r.Throws? ==> r.error == ReadError(rows, i)
  {
    match Channel(rows, i, fr)
    case Throws(e) => Throws(e)
    case Ok(r) =>
      match Channel(rows, i, fg)
      case Throws(e) => Throws(e)
      case Ok(g) =>
        match Channel(rows, i, fb)
        case Throws(e) => Throws(e)
        case Ok(b) => Ok(Or(Or(Or(-0x1000000, Shl(r, 16)), Shl(g, 8)), b))
  }

  // ---------------------------------------------------------------------
  // Properties

  /** Every field `writes` stores to exists in `row`. */
  predicate Fits(row: seq<real>, writes: Writes) {
    forall k :: 0 <= k < |writes| ==> writes[k].0 < |row|
  }

  /** Vertex i is a row with room for every store of `writes`. */
  predicate Holds(rows: Rows, i: int, writes: Writes) {
    0 <= i < |rows| && rows[i].Some? && Fits(rows[i].value, writes)
  }

  /** The fields stored to are pairwise distinct. */
  predicate Distinct(writes: Writes) {
    forall j, k :: 0 <= j < k < |writes| ==> writes[j].0 != writes[k].0
  }

  /** A row after the stores of `writes`, in order. */
  function Stored(row: seq<real>, writes: Writes): (r: seq<real>)
    requires Fits(row, writes)
    ensures |r| == |row|
    decreases |writes|
  {
    if writes == [] then row else Stored(row[writes[0].0 := writes[0].1], writes[1..])
  }

  /** Stores to distinct fields leave each stored value in place and every other field as it was. */
  lemma {:induction false} StoredFields(row: seq<real>, writes: Writes)
    requires Fits(row, writes) && Distinct(writes)
    ensures forall k :: 0 <= k < |writes| ==> Stored(row, writes)[writes[k].0] == writes[k].1
    ensures forall f :: 0 <= f < |row| && (forall k :: 0 <= k < |writes| ==> writes[k].0 != f) ==>
              Stored(row, writes)[f] == row[f]
    decreases |writes|
  {
    if writes != [] {
      var next := row[writes[0].0 := writes[0].1];
      var rest := writes[1..];
      assert forall k :: 0 <= k < |rest| ==> rest[k] == writes[k + 1];
      StoredFields(next, rest);
      forall k | 0 <= k < |writes|
        ensures Stored(row, writes)[writes[k].0] == writes[k].1
      {
        if k > 0 { assert writes[k] == rest[k - 1]; }
        else { assert forall j :: 0 <= j < |rest| ==> rest[j].0 != writes[0].0; }
      }
    }
  }

  /** On a row that holds every field the stores complete, and only that row changes. */
  lemma {:induction false} WriteAllCompletes(rows: Rows, i: int, writes: Writes)
    requires Holds(rows, i, writes)
    ensures WriteAll(rows, i, writes) == (rows[i := Some(Stored(rows[i].value, writes))], Returned)
    decreases |writes|
  {
    if writes == [] {
      assert rows[i := Some(rows[i].value)] == rows;
    } else {
      var next := Write(rows, i, writes[0].0, writes[0].1).value;
      assert next == rows[i := Some(rows[i].value[writes[0].0 := writes[0].1])];
      WriteAllCompletes(next, i, writes[1..]);
      assert next[i := Some(Stored(next[i].value, writes[1..]))] == rows[i := Some(Stored(rows[i].value, writes))];
    }
  }

  /**
   * When the first store is to the highest field, a throw leaves the
   * vertices as they were: either the row is missing or too short for
   * the first store already. The ARGB setters store alpha first, at the
   * highest offset of the four, so they change all four fields or none.
   */
  lemma WriteAllAtomic(rows: Rows, i: int, writes: Writes)
    requires |writes| > 0 && forall k :: 0 <= k < |writes| ==> writes[k].0 <= writes[0].0
    ensures WriteAll(rows, i, writes).1.Raised? ==> WriteAll(rows, i, writes).0 == rows
  {
    if Write(rows, i, writes[0].0, writes[0].1).Ok? {
      WriteAllCompletes(rows, i, writes);
    }
  }

  /** The RGB setters store red first, at the lowest offset: they can stop with red stored and blue not. */
  lemma RgbWritesPartial(c: Int32)
    ensures var rows := [Some(seq(AG, _ => 0.0))];
      var r := WriteAll(rows, 0, RgbWrites(c, AR, AG, AB));
      r.1 == Raised(IndexOutOfBounds) && r.0 == [Some(seq(AG, _ => 0.0)[AR := Fraction(c, 16)])]
  {
    var rows := [Some(seq(AG, _ => 0.0))];
    var w := RgbWrites(c, AR, AG, AB);
    var next := Write(rows, 0, AR, Fraction(c, 16)).value;
    assert WriteAll(rows, 0, w) == WriteAll(next, 0, w[1..]);
    assert Write(next, 0, AG, Fraction(c, 8)).Throws?;
  }

  /** Once an index of a sweep throws, the later indices are never reached. */
  lemma {:induction false} SweepHalts(rows: Rows, m: nat, n: nat, writes: Writes)
    requires m <= n && Sweep(rows, m, writes).1.Raised?
    ensures Sweep(rows, n, writes) == Sweep(rows, m, writes)
    decreases n
  {
    if m < n {
      SweepHalts(rows, m, n - 1, writes);
    }
  }

  /** The stores land where they were asked for: setVertex(i, x, y) then getVertexX(i) gives x. */
  lemma AssignedFields(rows: Option<Rows>, i: int, writes: Writes)
    requires rows.Some? && Holds(rows.value, i, writes) && Distinct(writes)
    ensures Assigned(rows, i, writes).1 == Returned && Touched(rows, i, writes) == Assigned(rows, i, writes)
    ensures var out := Assigned(rows, i, writes).0.value;
      && (forall k :: 0 <= k < |writes| ==> Field(out, i, writes[k].0) == Ok(writes[k].1))
      && (forall j :: 0 <= j < |rows.value| && j != i ==> out[j] == rows.value[j])
  {
    WriteAllCompletes(rows.value, i, writes);
    StoredFields(rows.value[i].value, writes);
  }

  /** setVertex(index, vec) on a row of two fields stores x and y and takes only a zero z. */
  lemma VectorSetFlat(rows: Option<Rows>, i: int, x: real, y: real, z: real)
    requires rows.Some? && 0 <= i < |rows.value| && rows.value[i].Some? && |rows.value[i].value| == 2
    ensures var r := VectorSet(rows, i, x, y, z);
      && r.0.Some? && r.0.value[i] == Some([x, y])
      && r.1 == (if z != 0.0 then Raised(IllegalArgument(NoZ)) else Returned)
  {
    var w := [(X, x), (Y, y)];
    assert Holds(rows.value, i, w) && Distinct(w);
    AssignedFields(rows, i, w);
    WriteAllCompletes(rows.value, i, w);
    var out := Assigned(rows, i, w).0.value;
    assert |out[i].value| == 2;
    assert Field(out, i, w[0].0) == Ok(x) && Field(out, i, w[1].0) == Ok(y);
    assert out[i].value == [x, y];
  }

  /** A field read from vertex i depends on that row alone. */
  lemma ChannelLocal(rows: Rows, other: Rows, i: int, f: nat)
    requires |rows| == |other| && 0 <= i < |rows| && rows[i] == other[i]
    ensures Channel(rows, i, f) == Channel(other, i, f)
  {
  }

  /** So does a packed colour. */
  lemma ArgbAtLocal(rows: Rows, other: Rows, i: int, fa: nat, fr: nat, fg: nat, fb: nat)
    requires |rows| == |other| && 0 <= i < |rows| && rows[i] == other[i]
    ensures ArgbAt(rows, i, fa, fr, fg, fb) == ArgbAt(other, i, fa, fr, fg, fb)
  {
    ChannelLocal(rows, other, i, fa);
    ChannelLocal(rows, other, i, fr);
    ChannelLocal(rows, other, i, fg);
    ChannelLocal(rows, other, i, fb);
  }

  lemma OpaqueAtLocal(rows: Rows, other: Rows, i: int, fr: nat, fg: nat, fb: nat)
    requires |rows| == |other| && 0 <= i < |rows| && rows[i] == other[i]
    ensures OpaqueAt(rows, i, fr, fg, fb) == OpaqueAt(other, i, fr, fg, fb)
  {
    ChannelLocal(rows, other, i, fr);
    ChannelLocal(rows, other, i, fg);
    ChannelLocal(rows, other, i, fb);
  }

  /**
   * setFill(c) then getFill(k), and the other ARGB sweeps: every vertex
   * the loop reaches reads back as c.
   */
  lemma SweptArgb(rows: Rows, n: nat, c: Int32, fa: nat, fr: nat, fg: nat, fb: nat)
    requires fa != fr && fa != fg && fa != fb && fr != fg && fr != fb && fg != fb
    requires forall k :: 0 <= k < Min(n, |rows|) ==> Holds(rows, k, ArgbWrites(c, fa, fr, fg, fb))
    ensures Sweep(rows, n, ArgbWrites(c, fa, fr, fg, fb)).1 == Returned
    ensures forall k :: 0 <= k < Min(n, |rows|) ==> ArgbAt(Sweep(rows, n, ArgbWrites(c, fa, fr, fg, fb)).0, k, fa, fr, fg, fb) == Ok(c)
  {
    var w := ArgbWrites(c, fa, fr, fg, fb);
    SweepStores(rows, n, w);
    forall k | 0 <= k < Min(n, |rows|)
      ensures ArgbAt(Sweep(rows, n, w).0, k, fa, fr, fg, fb) == Ok(c)
    {
      ArgbRoundTrip(rows, k, c, fa, fr, fg, fb);
      WriteAllCompletes(rows, k, w);
      ArgbAtLocal(Sweep(rows, n, w).0, WriteAll(rows, k, w).0, k, fa, fr, fg, fb);
    }
  }

  /** setAmbient(c) then getAmbient(k), and the specular and emissive sweeps: c with an opaque alpha. */
  lemma SweptOpaque(rows: Rows, n: nat, c: Int32, fr: nat, fg: nat, fb: nat)
    requires fr != fg && fr != fb && fg != fb
    requires forall k :: 0 <= k < Min(n, |rows|) ==> Holds(rows, k, RgbWrites(c, fr, fg, fb))
    ensures Sweep(rows, n, RgbWrites(c, fr, fg, fb)).1 == Returned
    ensures forall k :: 0 <= k < Min(n, |rows|) ==>
              OpaqueAt(Sweep(rows, n, RgbWrites(c, fr, fg, fb)).0, k, fr, fg, fb)
              == Ok(Pack(255, ByteAt(c, 16), ByteAt(c, 8), ByteAt(c, 0)))
  {
    var w := RgbWrites(c, fr, fg, fb);
    SweepStores(rows, n, w);
    forall k | 0 <= k < Min(n, |rows|)
      ensures OpaqueAt(Sweep(rows, n, w).0, k, fr, fg, fb) == Ok(Pack(255, ByteAt(c, 16), ByteAt(c, 8), ByteAt(c, 0)))
    {
      OpaqueRoundTrip(rows, k, c, fr, fg, fb);
      WriteAllCompletes(rows, k, w);
      OpaqueAtLocal(Sweep(rows, n, w).0, WriteAll(rows, k, w).0, k, fr, fg, fb);
    }
  }

  /** `-0x1000000` is `0xFF shl 24`. */
  lemma OpaqueMask()
    ensures Shl(255, 24) == -0x1000000
  {
    assert ToWord(255) == Word(0, 0, 0, 255);
  }

  /** A stored byte fraction reads back, through `* 255` and toInt(), as that byte. */
  lemma ChannelOfFraction(rows: Rows, i: int, f: nat, c: Int32, n: nat)
    requires ByteShift(n) && 0 <= i < |rows| && rows[i].Some? && f < |rows[i].value|
    requires rows[i].value[f] == Fraction(c, n)
    ensures Channel(rows, i, f) == Ok(ByteAt(c, n))
  {
    WholeFraction(ByteAt(c, n));
  }

  /** setFill(i, c) then getFill(i), and the tint and stroke pairs: the packed colour comes back unchanged. */
  lemma ArgbRoundTrip(rows: Rows, i: int, c: Int32, fa: nat, fr: nat, fg: nat, fb: nat)
    requires Holds(rows, i, ArgbWrites(c, fa, fr, fg, fb))
    requires fa != fr && fa != fg && fa != fb && fr != fg && fr != fb && fg != fb
    ensures WriteAll(rows, i, ArgbWrites(c, fa, fr, fg, fb)).1 == Returned
    ensures ArgbAt(WriteAll(rows, i, ArgbWrites(c, fa, fr, fg, fb)).0, i, fa, fr, fg, fb) == Ok(c)
  {
    var w := ArgbWrites(c, fa, fr, fg, fb);
    WriteAllCompletes(rows, i, w);
    var row := Stored(rows[i].value, w);
    StoredFields(rows[i].value, w);
    var out := WriteAll(rows, i, w).0;
    assert out[i] == Some(row);
    assert w[0].0 == fa && w[1].0 == fr && w[2].0 == fg && w[3].0 == fb;
    assert row[fa] == w[0].1 && row[fr] == w[1].1 && row[fg] == w[2].1 && row[fb] == w[3].1;
    ChannelOfFraction(out, i, fa, c, 24);
    ChannelOfFraction(out, i, fr, c, 16);
    ChannelOfFraction(out, i, fg, c, 8);
    ChannelOfFraction(out, i, fb, c, 0);
    UnpackPack(c);
  }

  /** setAmbient(i, c) then getAmbient(i), and the specular and emissive pairs: c comes back with its alpha forced to 0xFF. */
  lemma OpaqueRoundTrip(rows: Rows, i: int, c: Int32, fr: nat, fg: nat, fb: nat)
    requires Holds(rows, i, RgbWrites(c, fr, fg, fb))
    requires fr != fg && fr != fb && fg != fb
    ensures WriteAll(rows, i, RgbWrites(c, fr, fg, fb)).1 == Returned
    ensures OpaqueAt(WriteAll(rows, i, RgbWrites(c, fr, fg, fb)).0, i, fr, fg, fb)
            == Ok(Pack(255, ByteAt(c, 16), ByteAt(c, 8), ByteAt(c, 0)))
  {
    var w := RgbWrites(c, fr, fg, fb);
    WriteAllCompletes(rows, i, w);
    var row := Stored(rows[i].value, w);
    StoredFields(rows[i].value, w);
    var out := WriteAll(rows, i, w).0;
    assert out[i] == Some(row);
    assert w[0].0 == fr && w[1].0 == fg && w[2].0 == fb;
    assert row[fr] == w[0].1 && row[fg] == w[1].1 && row[fb] == w[2].1;
    ChannelOfFraction(out, i, fr, c, 16);
    ChannelOfFraction(out, i, fg, c, 8);
    ChannelOfFraction(out, i, fb, c, 0);
    OpaqueMask();
  }

  /** setStrokeWeight(w) then getStrokeWeight(k), and setShininess(s): every vertex reached reads back the value. */
  lemma SweptField(rows: Rows, n: nat, f: nat, v: real)
    requires forall k :: 0 <= k < Min(n, |rows|) ==> Holds(rows, k, [(f, v)])
    ensures Sweep(rows, n, [(f, v)]).1 == Returned
    ensures forall k :: 0 <= k < Min(n, |rows|) ==> Field(Sweep(rows, n, [(f, v)]).0, k, f) == Ok(v)
  {
    var w := [(f, v)];
    SweepStores(rows, n, w);
    forall k | 0 <= k < Min(n, |rows|)
      ensures Field(Sweep(rows, n, w).0, k, f) == Ok(v)
    {
      StoredFields(rows[k].value, w);
      assert w[0].0 == f;
    }
  }

  /**
   * setFill(c) and the other sweeping setters: when every vertex the loop
   * reaches holds the fields, the loop completes, each such vertex is
   * rewritten by the stores, and the slots past n are untouched.
   */
  lemma {:induction false} SweepStores(rows: Rows, n: nat, writes: Writes)
    requires forall k :: 0 <= k < Min(n, |rows|) ==> Holds(rows, k, writes)
    ensures Sweep(rows, n, writes).1 == Returned
    ensures forall k :: 0 <= k < Min(n, |rows|) ==>
              Holds(rows, k, writes) && Sweep(rows, n, writes).0[k] == Some(Stored(rows[k].value, writes))
    ensures forall k :: Min(n, |rows|) <= k < |rows| ==> Sweep(rows, n, writes).0[k] == rows[k]
  {
    if n > 0 {
      SweepStores(rows, n - 1, writes);
      var prev := Sweep(rows, n - 1, writes);
      if n - 1 < |rows| {
        assert prev.0[n - 1] == rows[n - 1];
        assert Holds(rows, n - 1, writes);
        WriteAllCompletes(prev.0, n - 1, writes);
      }
    }
  }
}
