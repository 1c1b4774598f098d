/**
 * What vertex(), quadraticVertex(), bezierVertex() and beginContour() do
 * to the two parallel arrays of a shape: `vertices` with its count
 * mvertexCount, `mvertexCodes` with its count mvertexCodeCount, and the
 * bounding size mwidth/mheight. The PShape methods are proved to change
 * their arrays exactly as these functions say.
 */
module Authoring {
  import opened Base
  import opened Constants
  import opened Paths
  import opened VertexStore

  /** The calls that add vertices: vertex(x, y), quadraticVertex(...), bezierVertex(...). */
  datatype Segment = Line | Quadratic | Bezier

  /** The code each call appends. */
  function CodeOf(seg: Segment): (code: int)
    ensures Drawing(code) && code != CURVE_VERTEX
  {
    match seg
    case Line => VERTEX
    case Quadratic => QUADRATIC_VERTEX
    case Bezier => BEZIER_VERTEX
  }

  /** The arrays and counts authoring works on; None is a null array. */
  datatype Store = Store(rows: Option<Rows>, vertexCount: int, codes: Option<seq<int>>, codeCount: int,
                         width: real, height: real)

  /** `if (v > m) m = v`. */
  function Max(m: real, v: real): real { if v > m then v else m }

  /** `a!![count++] = v`: the count advances before the store, which throws outside the array. */
  function Put<T>(s: seq<T>, count: int, v: T): (seq<T>, int, Outcome) {
    if 0 <= count < |s| then (s[count := v], count + 1, Returned) else (s, count + 1, Raised(IndexOutOfBounds))
  }

  /** The row `floatArrayOf(x, y)`. */
  function RowOf(p: (real, real)): Option<seq<real>> { Some([p.0, p.1]) }

  function RowsOf(points: seq<(real, real)>): (r: Rows)
    ensures |r| == |points| && forall k :: 0 <= k < |points| ==> r[k] == RowOf(points[k])
  {
    seq(|points|, k requires 0 <= k < |points| => RowOf(points[k]))
  }

  /**
   * The room test of each call: vertex() grows a full array, quadraticVertex()
   * one with fewer than two free slots, bezierVertex() one with fewer than three.
   */
  predicate Full(seg: Segment, size: int, count: int) {
    match seg
    case Line => size == count
    case Quadratic => count + 1 >= size
    case Bezier => count + 2 >= size
  }

  /**
   * `vertices` after the room test: ten rows, each `FloatArray(2)` for
   * vertex() and null for the curves, when there is none; doubled by
   * PApplet.expand when full.
   */
  function RowRoom(rows: Option<Rows>, count: int, seg: Segment): Rows {
    match rows
    case None => if seg == Line then seq(10, _ => Some([0.0, 0.0])) else seq(10, _ => None)
    case Some(rs) => if Full(seg, |rs|, count) then Grown(rs, None) else rs
  }

  /** `vertices!![mvertexCount++] = floatArrayOf(...)` for each point in turn; a throw ends them. */
  function PutRows(rows: Rows, count: int, points: seq<(real, real)>): (Rows, int, Outcome)
    decreases |points|
  {
    if points == [] then (rows, count, Returned)
    else
      var p := Put(rows, count, RowOf(points[0]));
      if p.2.Raised? then p else PutRows(p.0, p.1, points[1..])
  }

  /**
   * `mvertexCodes` after its room test: `IntArray(10)` when there is none
   * and the call allocates (vertex(), beginContour()), a NullPointerException
   * when it does not (the curves); doubled when full.
   */
  function CodeRoom(codes: Option<seq<int>>, count: int, allocate: bool): Result<seq<int>> {
    match codes
    case None => if allocate then Ok(seq(10, _ => 0)) else Throws(NullPointer)
    case Some(cs) => if |cs| == count then Ok(Grown(cs, 0)) else Ok(cs)
  }

  /** The room test, then `mvertexCodes!![mvertexCodeCount++] = code`. */
  function PutCode(codes: Option<seq<int>>, count: int, code: int, allocate: bool): (Option<seq<int>>, int, Outcome) {
    match CodeRoom(codes, count, allocate)
    case Throws(e) => (codes, count, Raised(e))
    case Ok(room) =>
      var p := Put(room, count, code);
      (Some(p.0), p.1, p.2)
  }

  /**
   * vertex(x, y), quadraticVertex(cx, cy, x3, y3) and bezierVertex(x2, y2,
   * x3, y3, x4, y4): the rows, then the code, then the bounding size grown
   * to the last point; an exception leaves what was stored before it.
   */
  function Added(s: Store, seg: Segment, points: seq<(real, real)>): (Store, Outcome)
    requires |points| > 0
  {
    var stored := PutRows(RowRoom(s.rows, s.vertexCount, seg), s.vertexCount, points);
    var s1 := s.(rows := Some(stored.0), vertexCount := stored.1);
    if stored.2.Raised? then (s1, stored.2)
    else
      var coded := PutCode(s.codes, s.codeCount, CodeOf(seg), seg == Line);
      var s2 := s1.(codes := coded.0, codeCount := coded.1);
      if coded.2.Raised? then (s2, coded.2)
      else
        var last := points[|points| - 1];
        (s2.(width := Max(s.width, last.0), height := Max(s.height, last.1)), Returned)
  }

  /** beginContourImpl(): a BREAK code. */
  function Broken(s: Store): (Store, Outcome) {
    var coded := PutCode(s.codes, s.codeCount, BREAK, true);
    (s.(codes := coded.0, codeCount := coded.1), coded.2)
  }

  // ---------------------------------------------------------------------
  // The stride invariant

  /** The codes in use: the first mvertexCodeCount entries. */
  function Entries(s: Store): seq<int> {
    if s.codes.Some? && 0 <= s.codeCount <= |s.codes.value| then s.codes.value[..s.codeCount] else []
  }

  /** The rows in use: the first mvertexCount slots. */
  function Points(s: Store): Rows {
    if s.rows.Some? && 0 <= s.vertexCount <= |s.rows.value| then s.rows.value[..s.vertexCount] else []
  }

  /**
   * Both counts lie within their arrays (zero for a missing array), and
   * the codes in use consume exactly the rows in use.
   */
  predicate Counted(s: Store) {
    && (if s.codes.None? then s.codeCount == 0 else 0 <= s.codeCount <= |s.codes.value|)
    && (if s.rows.None? then s.vertexCount == 0 else 0 <= s.vertexCount <= |s.rows.value|)
    && StrideSum(Entries(s)) == s.vertexCount
  }

  /** A room test keeps the rows in use. */
  lemma RowRoomKeeps(rows: Option<Rows>, count: int, seg: Segment)
    requires if rows.None? then count == 0 else 0 <= count <= |rows.value|
    ensures count <= |RowRoom(rows, count, seg)|
    ensures rows.Some? ==> RowRoom(rows, count, seg)[..count] == rows.value[..count]
  {
    if rows.Some? && Full(seg, |rows.value|, count) {
      var g := Grown(rows.value, None);
      assert g[..count] == g[..|rows.value|][..count];
    }
  }

  /** Stores that fit land one after the other and leave the other slots alone. */
  lemma {:induction false} PutRowsStores(rows: Rows, count: int, points: seq<(real, real)>)
    requires 0 <= count && count + |points| <= |rows|
    ensures var r := PutRows(rows, count, points);
      && r.2 == Returned && r.1 == count + |points| && |r.0| == |rows|
      && r.0[..count] == rows[..count] && r.0[count..r.1] == RowsOf(points)
    decreases |points|
  {
    if points != [] {
      var next := rows[count := RowOf(points[0])];
      PutRowsStores(next, count + 1, points[1..]);
      var r := PutRows(next, count + 1, points[1..]);
      assert r.0[..count] == r.0[..count + 1][..count];
      assert r.0[count..r.1] == [r.0[count]] + r.0[count + 1..r.1];
      assert RowsOf(points) == [RowOf(points[0])] + RowsOf(points[1..]);
    }
  }

  /** A code store that fits appends the code to the codes in use. */
  lemma PutCodeAppends(codes: Option<seq<int>>, count: int, code: int, allocate: bool)
    requires if codes.None? then count == 0 else 0 <= count <= |codes.value|
    requires codes.Some? || allocate
    ensures var r := PutCode(codes, count, code, allocate);
      && r.2 == Returned && r.0.Some? && r.1 == count + 1 && r.1 <= |r.0.value|
      && r.0.value[..r.1] == (if codes.None? then [] else codes.value[..count]) + [code]
  {
    var room := CodeRoom(codes, count, allocate).value;
    if codes.Some? {
      assert room[..count] == codes.value[..count] by {
        if |codes.value| == count { assert room[..count] == room[..|codes.value|]; }
      }
    }
    assert room[count := code][..count + 1] == room[..count] + [code];
  }

  /** The stores of two points, one after the other. */
  lemma PutTwoRows(rows: Rows, count: int, p: (real, real), q: (real, real))
    ensures var a := Put(rows, count, RowOf(p));
      PutRows(rows, count, [p, q]) == if a.2.Raised? then a else Put(a.0, a.1, RowOf(q))
  {
    var a := Put(rows, count, RowOf(p));
    assert [p, q][1..] == [q];
    assert PutRows(a.0, a.1, [q]) == Put(a.0, a.1, RowOf(q));
  }

  /** The stores of three points, one after the other. */
  lemma PutThreeRows(rows: Rows, count: int, p: (real, real), q: (real, real), t: (real, real))
    ensures var a := Put(rows, count, RowOf(p));
      PutRows(rows, count, [p, q, t]) == if a.2.Raised? then a else PutRows(a.0, a.1, [q, t])
  {
    assert [p, q, t][1..] == [q, t];
  }

  /** Stores that return fit in the array after the room test and extend the rows in use. */
  lemma StoredRows(s: Store, seg: Segment, points: seq<(real, real)>)
    requires if s.rows.None? then s.vertexCount == 0 else 0 <= s.vertexCount <= |s.rows.value|
    requires PutRows(RowRoom(s.rows, s.vertexCount, seg), s.vertexCount, points).2 == Returned
    ensures var r := PutRows(RowRoom(s.rows, s.vertexCount, seg), s.vertexCount, points);
      && r.1 == s.vertexCount + |points| && r.1 <= |r.0|
      && r.0[..r.1] == Points(s) + RowsOf(points)
  {
    var room := RowRoom(s.rows, s.vertexCount, seg);
    RowRoomKeeps(s.rows, s.vertexCount, seg);
    if s.vertexCount + |points| > |room| {
      PutRowsOverflow(room, s.vertexCount, points);
      assert false;
    }
    PutRowsStores(room, s.vertexCount, points);
    var r := PutRows(room, s.vertexCount, points);
    assert r.0[..r.1] == r.0[..s.vertexCount] + r.0[s.vertexCount..r.1];
  }

  /**
   * vertex(), quadraticVertex() and bezierVertex() keep the stride
   * invariant: when the call returns, it has appended its one code to the
   * codes in use and its points to the rows in use, and nothing before
   * them changed.
   */
  lemma AddedStride(s: Store, seg: Segment, points: seq<(real, real)>)
    requires Counted(s) && |points| == Stride(CodeOf(seg))
    requires Added(s, seg, points).1 == Returned
    ensures var t := Added(s, seg, points).0;
      && Counted(t)
      && Entries(t) == Entries(s) + [CodeOf(seg)]
      && Points(t) == Points(s) + RowsOf(points)
  {
    var stored := PutRows(RowRoom(s.rows, s.vertexCount, seg), s.vertexCount, points);
    StoredRows(s, seg, points);
    var coded := PutCode(s.codes, s.codeCount, CodeOf(seg), seg == Line);
    PutCodeAppends(s.codes, s.codeCount, CodeOf(seg), seg == Line);
    var t := Added(s, seg, points).0;
    assert t.rows == Some(stored.0) && t.vertexCount == stored.1;
    assert t.codes == coded.0 && t.codeCount == coded.1;
    assert Points(t) == stored.0[..stored.1];
    assert Entries(t) == Entries(s) + [CodeOf(seg)];
    PrefixStep(Entries(s), CodeOf(seg));
  }

  /** Stores that run past the end of the array throw. */
  lemma {:induction false} PutRowsOverflow(rows: Rows, count: int, points: seq<(real, real)>)
    requires 0 <= count <= |rows| < count + |points|
    ensures PutRows(rows, count, points).2 == Raised(IndexOutOfBounds)
    decreases |points|
  {
    if count < |rows| {
      PutRowsOverflow(rows[count := RowOf(points[0])], count + 1, points[1..]);
    }
  }

  /**
   * The calls always return on a well-formed store whose rows, if any,
   * number at least three, provided the curves find a code array: the
   * single doubling on a full array then makes room for every row.
   */
  lemma AddedCompletes(s: Store, seg: Segment, points: seq<(real, real)>)
    requires Counted(s) && |points| == Stride(CodeOf(seg))
    requires s.rows.Some? ==> |s.rows.value| >= 3
    requires seg != Line ==> s.codes.Some?
    ensures Added(s, seg, points).1 == Returned
  {
    var room := RowRoom(s.rows, s.vertexCount, seg);
    assert |points| <= 3;
    if s.rows.Some? && !Full(seg, |s.rows.value|, s.vertexCount) {
      assert s.vertexCount + |points| <= |room| by {
        match seg { case Line => case Quadratic => case Bezier => }
      }
    }
    PutRowsStores(room, s.vertexCount, points);
    PutCodeAppends(s.codes, s.codeCount, CodeOf(seg), seg == Line);
  }

  /**
   * The bounding size never shrinks; when the call returns it is the
   * largest of the old size and the last point, and an exception leaves it.
   */
  lemma AddedBounds(s: Store, seg: Segment, points: seq<(real, real)>)
    requires |points| > 0
    ensures var r := Added(s, seg, points);
      && r.0.width >= s.width && r.0.height >= s.height
      && (r.1 == Returned ==>
            r.0.width == Max(s.width, points[|points| - 1].0) && r.0.height == Max(s.height, points[|points| - 1].1))
      && (r.1.Raised? ==> r.0.width == s.width && r.0.height == s.height)
  {
  }

  /**
   * beginContour()'s BREAK on a well-formed store always lands: one more
   * code in use, the rows untouched, the invariant kept.
   */
  lemma BrokenStride(s: Store)
    requires Counted(s)
    ensures var t := Broken(s).0;
      && Broken(s).1 == Returned && Counted(t)
      && Entries(t) == Entries(s) + [BREAK]
      && t.rows == s.rows && t.vertexCount == s.vertexCount
  {
    PutCodeAppends(s.codes, s.codeCount, BREAK, true);
    PrefixStep(Entries(s), BREAK);
  }

  /**
   * The single doubling is not always enough: after setPath() with two
   * rows, bezierVertex() grows the array to four, stores two rows and
   * throws on the third, with mvertexCount at five and no code appended.
   */
  lemma BezierOutgrowsOneDoubling(row: seq<real>, x2: real, y2: real, x3: real, y3: real, x4: real, y4: real)
    ensures var s := Store(Some([Some(row), Some(row)]), 2, None, 0, 0.0, 0.0);
      var r := Added(s, Bezier, [(x2, y2), (x3, y3), (x4, y4)]);
      && r.1 == Raised(IndexOutOfBounds) && r.0.vertexCount == 5
      && r.0.rows == Some([Some(row), Some(row), RowOf((x2, y2)), RowOf((x3, y3))])
      && r.0.codes == None && r.0.codeCount == 0
  {
    var s := Store(Some([Some(row), Some(row)]), 2, None, 0, 0.0, 0.0);
    var points := [(x2, y2), (x3, y3), (x4, y4)];
    var rows := [Some(row), Some(row)];
    var room := Grown(rows, None);
    assert room == [Some(row), Some(row), None, None];
    assert RowRoom(s.rows, 2, Bezier) == room;
    var p1 := Put(room, 2, RowOf((x2, y2)));
    assert p1.0 == [Some(row), Some(row), RowOf((x2, y2)), None];
    assert p1.1 == 3 && p1.2 == Returned;
    var p2 := Put(p1.0, 3, RowOf((x3, y3)));
    assert p2.0 == [Some(row), Some(row), RowOf((x2, y2)), RowOf((x3, y3))];
    assert p2.1 == 4 && p2.2 == Returned;
    assert PutRows(room, 2, points) == PutRows(p1.0, 3, points[1..]);
    assert PutRows(p1.0, 3, points[1..]) == PutRows(p2.0, 4, points[2..]);
    assert PutRows(p2.0, 4, points[2..]) == (p2.0, 5, Raised(IndexOutOfBounds));
  }

  // ---------------------------------------------------------------------
  // setPath(): replacing both arrays at once

  function Zeros(n: nat): seq<real> { seq(n, _ => 0.0) }

  /** `Array(vcount) { FloatArray(ndim) }`. */
  function ZeroRows(n: nat, ndim: nat): (r: Rows)
    ensures |r| == n
  {
    seq(n, _ => Some(Zeros(ndim)))
  }

  /** A source row copied to the front of a zero row of ndim fields. */
  function Padded(row: seq<real>, ndim: nat): seq<real>
    requires |row| <= ndim
  {
    row + Zeros(ndim - |row|)
  }

  /**
   * `PApplet.arrayCopy(src, dst)` into a fresh row of ndim fields: the
   * whole source, which must exist and fit; nothing is copied otherwise.
   */
  function CopyRow(src: Option<seq<real>>, ndim: nat): (r: Result<seq<real>>)
    ensures r.Ok? <==> src.Some? && |src.value| <= ndim
    ensures r.Ok? ==> |r.value| == ndim && r.value[..|src.value|] == src.value
  {
    if src.None? then Throws(NullPointer)
    else if |src.value| > ndim then Throws(IndexOutOfBounds)
    else Ok(Padded(src.value, ndim))
  }

  /** The copy loop of setPath() after n rounds; a round that throws ends it with the earlier rows copied. */
  function Copied(rows: Rows, verts: Rows, ndim: nat, n: nat): (r: (Rows, Outcome))
    requires n <= |rows| && n <= |verts|
    ensures |r.0| == |rows|
  {
    if n == 0 then (rows, Returned)
    else
      var prev := Copied(rows, verts, ndim, n - 1);
      if prev.1.Raised? then prev
      else match CopyRow(verts[n - 1], ndim)
        case Throws(e) => (prev.0, Raised(e))
        case Ok(row) => (prev.0[n - 1 := Some(row)], Returned)
  }

  /** Once a round throws, later rounds do not run. */
  lemma {:induction false} CopiedHalts(rows: Rows, verts: Rows, ndim: nat, m: nat, n: nat)
    requires m <= n <= |rows| && n <= |verts|
    requires Copied(rows, verts, ndim, m).1.Raised?
    ensures Copied(rows, verts, ndim, n) == Copied(rows, verts, ndim, m)
    decreases n - m
  {
    if m < n {
      CopiedHalts(rows, verts, ndim, m, n - 1);
    }
  }

  /**
   * setPath(vcount, verts, ccount, codes). It returns quietly when verts is
   * missing or short, or codes are wanted and missing or short; the width
   * of every row is that of verts[0]; mvertexCount is assigned before the
   * array is made, so a negative count is kept when that throws; the codes
   * are replaced only when ccount is positive.
   */
  function PathSet(s: Store, vcount: int, verts: Option<Rows>, ccount: int, codes: Option<seq<int>>): (Store, Outcome) {
    if verts.None? || |verts.value| < vcount then (s, Returned)
    else if 0 < ccount && (codes.None? || |codes.value| < ccount) then (s, Returned)
    else if |verts.value| == 0 then (s, Raised(IndexOutOfBounds))
    else if verts.value[0].None? then (s, Raised(NullPointer))
    else if vcount < 0 then (s.(vertexCount := vcount), Raised(NegativeArraySize))
    else
      var ndim := |verts.value[0].value|;
      var c := Copied(ZeroRows(vcount, ndim), verts.value, ndim, vcount);
      var t := s.(vertexCount := vcount, rows := Some(c.0));
      if c.1.Raised? then (t, c.1)
      else (t.(codeCount := ccount, codes := if 0 < ccount then Some(codes.value[..ccount]) else s.codes), Returned)
  }

  /** The inputs setPath() copies in full: every source row exists and fits the width of the first. */
  predicate PathAccepted(vcount: int, verts: Option<Rows>, ccount: int, codes: Option<seq<int>>) {
    && verts.Some? && 0 <= vcount <= |verts.value| && 0 < |verts.value| && verts.value[0].Some?
    && (0 < ccount ==> codes.Some? && ccount <= |codes.value|)
    && forall i :: 0 <= i < vcount ==> verts.value[i].Some? && |verts.value[i].value| <= |verts.value[0].value|
  }

  /** When every row fits, the loop copies each of the first n rows and leaves the rest. */
  lemma {:induction false} CopiedAll(rows: Rows, verts: Rows, ndim: nat, n: nat)
    requires n <= |rows| && n <= |verts|
    requires forall i :: 0 <= i < n ==> verts[i].Some? && |verts[i].value| <= ndim
    ensures Copied(rows, verts, ndim, n).1 == Returned
    ensures forall i :: 0 <= i < n ==> Copied(rows, verts, ndim, n).0[i] == Some(Padded(verts[i].value, ndim))
    ensures forall i :: n <= i < |rows| ==> Copied(rows, verts, ndim, n).0[i] == rows[i]
  {
    if n > 0 {
      CopiedAll(rows, verts, ndim, n - 1);
    }
  }

  /**
   * setPath() on accepted inputs: the vertex count becomes vcount, each row
   * in use is its source row padded with zeros to the first row's width,
   * the codes in use are the first ccount given, and the bounding size is kept.
   */
  lemma PathSetStores(s: Store, vcount: int, verts: Option<Rows>, ccount: int, codes: Option<seq<int>>)
    requires PathAccepted(vcount, verts, ccount, codes)
    ensures var r := PathSet(s, vcount, verts, ccount, codes);
      var ndim := |verts.value[0].value|;
      && r.1 == Returned && r.0.vertexCount == vcount && r.0.codeCount == ccount
      && r.0.rows.Some? && |r.0.rows.value| == vcount
      && (forall i :: 0 <= i < vcount ==> r.0.rows.value[i] == Some(Padded(verts.value[i].value, ndim)))
      && (0 < ccount ==> Entries(r.0) == codes.value[..ccount])
      && r.0.width == s.width && r.0.height == s.height
  {
    var ndim := |verts.value[0].value|;
    CopiedAll(ZeroRows(vcount, ndim), verts.value, ndim, vcount);
  }

  /** Given codes whose strides add up to vcount, setPath() leaves the stride invariant holding. */
  lemma PathSetCounted(s: Store, vcount: int, verts: Option<Rows>, ccount: int, codes: Option<seq<int>>)
    requires PathAccepted(vcount, verts, ccount, codes) && 0 < ccount
    requires StrideSum(codes.value[..ccount]) == vcount
    ensures Counted(PathSet(s, vcount, verts, ccount, codes).0)
  {
    PathSetStores(s, vcount, verts, ccount, codes);
  }

  /**
   * The other way round: setPath() that returns normally either changed
   * nothing or had accepted inputs, and one that throws never touches the codes.
   */
  lemma PathSetOutcomes(s: Store, vcount: int, verts: Option<Rows>, ccount: int, codes: Option<seq<int>>)
    ensures var r := PathSet(s, vcount, verts, ccount, codes);
      && (r.1 == Returned ==> r.0 == s || PathAccepted(vcount, verts, ccount, codes))
      && (r.1.Raised? ==> r.0.codes == s.codes && r.0.codeCount == s.codeCount && r.0.width == s.width)
  {
    var r := PathSet(s, vcount, verts, ccount, codes);
    if r.1 == Returned && r.0 != s && verts.Some? && 0 < |verts.value| && verts.value[0].Some? && 0 <= vcount {
      var ndim := |verts.value[0].value|;
      CopiedReturns(ZeroRows(vcount, ndim), verts.value, ndim, vcount);
    }
  }

  /** A copy loop that completes had every row it reached present and fitting. */
  lemma {:induction false} CopiedReturns(rows: Rows, verts: Rows, ndim: nat, n: nat)
    requires n <= |rows| && n <= |verts|
    requires Copied(rows, verts, ndim, n).1 == Returned
    ensures forall i :: 0 <= i < n ==> verts[i].Some? && |verts[i].value| <= ndim
  {
    if n > 0 {
      CopiedReturns(rows, verts, ndim, n - 1);
    }
  }
}
