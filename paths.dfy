/**
 * What drawPath() and drawGeometry() send to the renderer, as functions
 * of the vertex rows, the vertex count, the vertex codes and the close
 * flag. The methods that loop over the shape's arrays are in the Shape
 * module and are proved equal to these functions.
 */
module Paths {
  import opened Base
  import opened Constants
  import opened Render

  /** The slots of a `vertices` array: a row of coordinates, or null. */
  type Rows = seq<Option<seq<real>>>

  /** `vertices!![i]!![f]`. */
  function Coord(rows: Rows, i: nat, f: nat): (r: Result<real>)
    ensures r.Ok? <==> i < |rows| && rows[i].Some? && f < |rows[i].value|
    ensures r.Ok? ==> r.value == rows[i].value[f]
    ensures r.Throws? ==> r.error == (if i < |rows| && rows[i].Some? then IndexOutOfBounds
                                      else if i < |rows| then NullPointer else IndexOutOfBounds)
  {
    if i >= |rows| then Throws(IndexOutOfBounds)
    else match rows[i]
      case None => Throws(NullPointer)
      case Some(row) => if f < |row| then Ok(row[f]) else Throws(IndexOutOfBounds)
  }

  /** The coordinates `refs` read left to right, as Kotlin evaluates arguments; the first failure wins. */
  function Fetch(rows: Rows, refs: seq<(nat, nat)>): (r: Result<seq<real>>)
    ensures r.Ok? <==> forall k :: 0 <= k < |refs| ==> Coord(rows, refs[k].0, refs[k].1).Ok?
    ensures r.Ok? ==> |r.value| == |refs|
    ensures r.Ok? ==> forall k :: 0 <= k < |refs| ==> r.value[k] == rows[refs[k].0].value[refs[k].1]
    decreases |refs|
  {
    if refs == [] then Ok([])
    else match Coord(rows, refs[0].0, refs[0].1)
      case Throws(e) => Throws(e)
      case Ok(v) =>
        match Fetch(rows, refs[1..])
        case Throws(e) => Throws(e)
        case Ok(vs) =>
          assert forall k :: 1 <= k < |refs| ==> refs[k] == refs[1..][k - 1];
          Ok([v] + vs)
  }

  /** The codes that draw: each consumes `Stride` vertices. */
  predicate Drawing(code: int) {
    code == VERTEX || code == QUADRATIC_VERTEX || code == BEZIER_VERTEX || code == CURVE_VERTEX
  }

  /** How many vertex rows a code consumes: BREAK and unknown codes none. */
  function Stride(code: int): nat {
    if code == VERTEX || code == CURVE_VERTEX then 1
    else if code == QUADRATIC_VERTEX then 2
    else if code == BEZIER_VERTEX then 3
    else 0
  }

  /** The coordinates a drawing code reads for the vertices starting at row i. */
  function Refs(code: int, i: nat, threeD: bool): (refs: seq<(nat, nat)>)
    ensures forall k :: 0 <= k < |refs| ==> i <= refs[k].0 < i + Stride(code) && refs[k].1 <= (if threeD then Z else Y)
  {
    if code == VERTEX || code == CURVE_VERTEX then
      if threeD then [(i, X), (i, Y), (i, Z)] else [(i, X), (i, Y)]
    else if code == QUADRATIC_VERTEX then
      // The 3D form passes the first row's Z as the second point's Z.
      if threeD then [(i, X), (i, Y), (i, Z), (i + 1, X), (i + 1, Y), (i, Z)]
      else [(i, X), (i, Y), (i + 1, X), (i + 1, Y)]
    else if code == BEZIER_VERTEX then
      if threeD then [(i, X), (i, Y), (i, Z), (i + 1, X), (i + 1, Y), (i + 1, Z), (i + 2, X), (i + 2, Y), (i + 2, Z)]
      else [(i, X), (i, Y), (i + 1, X), (i + 1, Y), (i + 2, X), (i + 2, Y)]
    else []
  }

  function Emitted(code: int, coords: seq<real>): Cmd {
    if code == VERTEX then Vertex(coords)
    else if code == QUADRATIC_VERTEX then QuadraticVertex(coords)
    else if code == BEZIER_VERTEX then BezierVertex(coords)
    else CurveVertex(coords)
  }

  /** The loop variables of drawPath: calls so far, `index`, `insideContour`, and a thrown exception. */
  datatype PathState = PathState(events: seq<Cmd>, index: nat, inside: bool, error: Option<Exception>)

  const Start := PathState([], 0, false, None)

  /** A BREAK ends an open contour and begins a new one. */
  function BreakCalls(inside: bool): seq<Cmd> {
    (if inside then [EndContour] else []) + [BeginContour]
  }

  /** One iteration of the `when (mvertexCodes!![j])` loop. */
  function Step(rows: Rows, threeD: bool, st: PathState, code: int): PathState {
    if st.error.Some? then st
    else if code == BREAK then
      st.(events := st.events + BreakCalls(st.inside), inside := true)
    else if Drawing(code) then
      match Fetch(rows, Refs(code, st.index, threeD))
      case Throws(e) => st.(error := Some(e))
      case Ok(coords) => st.(events := st.events + [Emitted(code, coords)], index := st.index + Stride(code))
    else st
  }

  /** The state after the first n codes. */
  function Run(rows: Rows, threeD: bool, codes: seq<int>, n: nat): PathState
    requires n <= |codes|
  {
    if n == 0 then Start else Step(rows, threeD, Run(rows, threeD, codes, n - 1), codes[n - 1])
  }

  /** Without codes every vertex is a plain VERTEX. */
  function Plain(n: nat): (codes: seq<int>)
    ensures |codes| == n && forall k :: 0 <= k < n ==> codes[k] == VERTEX
  {
    seq(n, _ => VERTEX)
  }

  /** `vertices!![0]!!.size == 2` decides between the 2D and the 3D calls. */
  function Probe(rows: Rows): Result<bool> {
    if |rows| == 0 then Throws(IndexOutOfBounds)
    else match rows[0]
      case None => Throws(NullPointer)
      case Some(row) => Ok(|row| != 2)
  }

  function EndMode(close: bool): int { if close then CLOSE else OPEN }

  /** The iterations of `for (i in 0 until n)`: none when n is negative. */
  function Iterations(n: int): nat { if n < 0 then 0 else n }

  /**
   * drawPath(): nothing without vertices; otherwise beginShape(), the
   * vertices, a closing endContour() when a contour is still open, and
   * endShape(). `codes` is None when mvertexCodeCount is zero, and then
   * every one of the `count` rows is a plain vertex.
   */
  function PathTrace(rows: Option<Rows>, count: int, codes: Option<seq<int>>, close: bool): Replay {
    match rows
    case None => Emit([])
    case Some(rs) =>
      match Probe(rs)
      case Throws(e) => Replay([BeginShape], Some(e))
      case Ok(threeD) =>
        var cs := if codes.None? then Plain(Iterations(count)) else codes.value;
        var st := Run(rs, threeD, cs, |cs|);
        if st.error.Some? then Replay([BeginShape] + st.events, st.error)
        else Emit([BeginShape] + st.events + (if st.inside then [EndContour] else []) + [EndShape(EndMode(close))])
  }

  // ---------------------------------------------------------------------
  // Properties of the path replay

  function StrideSum(codes: seq<int>): nat
    decreases |codes|
  {
    if codes == [] then 0 else StrideSum(codes[..|codes| - 1]) + Stride(codes[|codes| - 1])
  }

  function Breaks(codes: seq<int>): nat
    decreases |codes|
  {
    if codes == [] then 0 else Breaks(codes[..|codes| - 1]) + (if codes[|codes| - 1] == BREAK then 1 else 0)
  }

  /**
   * Whether a contour is open after the calls of a trace, as long as every
   * beginContour() comes outside a contour and every endContour() inside
   * one; None from the first contour call that breaks this alternation.
   */
  function Nesting(s: seq<Cmd>): Option<bool>
    decreases |s|
  {
    if s == [] then Some(false) else NestStep(Nesting(s[..|s| - 1]), s[|s| - 1])
  }

  function NestStep(open: Option<bool>, c: Cmd): Option<bool> {
    match open
    case None => None
    case Some(inside) =>
      if c.BeginContour? then (if inside then None else Some(true))
      else if c.EndContour? then (if inside then Some(false) else None)
      else open
  }

  lemma NestingSnoc(s: seq<Cmd>, c: Cmd)
    ensures Nesting(s + [c]) == NestStep(Nesting(s), c)
  {
    assert (s + [c])[..|s|] == s;
  }

  /** A call in front that is not a contour call changes nothing. */
  lemma {:induction false} NestingCons(c: Cmd, s: seq<Cmd>)
    requires !c.BeginContour? && !c.EndContour?
    ensures Nesting([c] + s) == Nesting(s)
    decreases |s|
  {
    if s == [] {
      NestingSnoc([], c);
    } else {
      var init, last := s[..|s| - 1], s[|s| - 1];
      assert s == init + [last];
      assert [c] + s == ([c] + init) + [last];
      NestingCons(c, init);
      NestingSnoc([c] + init, last);
      NestingSnoc(init, last);
    }
  }

  /** What holds of the loop variables after every code that did not throw. */
  predicate RunFacts(st: PathState, prefix: seq<int>) {
    && st.index == StrideSum(prefix)
    && (st.inside <==> Breaks(prefix) > 0)
    && Count(st.events, BeginContour) == Breaks(prefix)
    && Count(st.events, EndContour) == Breaks(prefix) - (if st.inside then 1 else 0)
    && Nesting(st.events) == Some(st.inside)
  }

  lemma DrawStepFacts(events: seq<Cmd>, c: Cmd)
    requires !c.BeginContour? && !c.EndContour?
    ensures Count(events + [c], BeginContour) == Count(events, BeginContour)
    ensures Count(events + [c], EndContour) == Count(events, EndContour)
    ensures Nesting(events + [c]) == Nesting(events)
  {
    CountAppend(events, [c], BeginContour);
    CountAppend(events, [c], EndContour);
    NestingSnoc(events, c);
  }

  lemma BreakCounts(events: seq<Cmd>, inside: bool)
    ensures Count(events + BreakCalls(inside), BeginContour) == Count(events, BeginContour) + 1
    ensures Count(events + BreakCalls(inside), EndContour) == Count(events, EndContour) + (if inside then 1 else 0)
  {
    var added := BreakCalls(inside);
    CountAppend(events, added, BeginContour);
    CountAppend(events, added, EndContour);
    if inside {
      assert added[1..] == [BeginContour] && [BeginContour][1..] == [];
    } else {
      assert added == [BeginContour] && added[1..] == [];
    }
  }

  /** The calls of a BREAK close the open contour, if any, and open one. */
  lemma BreakNesting(events: seq<Cmd>, inside: bool)
    requires Nesting(events) == Some(inside)
    ensures Nesting(events + BreakCalls(inside)) == Some(true)
  {
    if inside {
      assert events + BreakCalls(inside) == (events + [EndContour]) + [BeginContour];
      NestingSnoc(events, EndContour);
      NestingSnoc(events + [EndContour], BeginContour);
    } else {
      assert events + BreakCalls(inside) == events + [BeginContour];
      NestingSnoc(events, BeginContour);
    }
  }

  lemma PrefixStep(prefix: seq<int>, code: int)
    ensures StrideSum(prefix + [code]) == StrideSum(prefix) + Stride(code)
    ensures Breaks(prefix + [code]) == Breaks(prefix) + (if code == BREAK then 1 else 0)
  {
    assert (prefix + [code])[..|prefix|] == prefix;
  }

  /** A BREAK closes an open contour and opens a new one. */
  lemma BreakPreserves(prev: PathState, prefix: seq<int>)
    requires RunFacts(prev, prefix)
    ensures RunFacts(prev.(events := prev.events + BreakCalls(prev.inside), inside := true), prefix + [BREAK])
  {
    PrefixStep(prefix, BREAK);
    BreakCounts(prev.events, prev.inside);
    BreakNesting(prev.events, prev.inside);
  }

  /** A drawing code moves the index by its stride and sends no contour call. */
  lemma DrawPreserves(prev: PathState, prefix: seq<int>, code: int, c: Cmd)
    requires RunFacts(prev, prefix) && !c.BeginContour? && !c.EndContour? && code != BREAK
    ensures RunFacts(prev.(events := prev.events + [c], index := prev.index + Stride(code)), prefix + [code])
  {
    var next := prev.(events := prev.events + [c], index := prev.index + Stride(code));
    PrefixStep(prefix, code);
    DrawStepFacts(prev.events, c);
    assert next.events == prev.events + [c] && next.inside == prev.inside;
  }

  /**
   * After every code that did not throw, the vertex index is the sum of
   * the strides so far, one beginContour() has been sent per BREAK, one
   * endContour() per BREAK except for a contour still open, and the contour
   * calls alternate, starting with beginContour().
   */
  lemma {:induction false} RunInvariant(rows: Rows, threeD: bool, codes: seq<int>, n: nat)
    requires n <= |codes|
    ensures Run(rows, threeD, codes, n).error.None? ==> RunFacts(Run(rows, threeD, codes, n), codes[..n])
  {
    if n > 0 {
      assert codes[..n] == codes[..n - 1] + [codes[n - 1]];
      RunInvariant(rows, threeD, codes, n - 1);
      var prev := Run(rows, threeD, codes, n - 1);
      if prev.error.None? {
        StepPreserves(rows, threeD, prev, codes[..n - 1], codes[n - 1]);
      }
    }
  }

  /** One code of the loop keeps the facts of RunFacts, unless it throws. */
  lemma StepPreserves(rows: Rows, threeD: bool, prev: PathState, prefix: seq<int>, code: int)
    requires prev.error.None? && RunFacts(prev, prefix)
    ensures Step(rows, threeD, prev, code).error.None? ==> RunFacts(Step(rows, threeD, prev, code), prefix + [code])
  {
    var next := Step(rows, threeD, prev, code);
    if code == BREAK {
      assert next == prev.(events := prev.events + BreakCalls(prev.inside), inside := true);
      BreakPreserves(prev, prefix);
    } else if Drawing(code) {
      var r := Fetch(rows, Refs(code, prev.index, threeD));
      if r.Ok? {
        var c := Emitted(code, r.value);
        assert next == prev.(events := prev.events + [c], index := prev.index + Stride(code));
        DrawPreserves(prev, prefix, code, c);
      }
    } else {
      assert next == prev;
      PrefixStep(prefix, code);
    }
  }

  /** A run that threw stays thrown. */
  lemma {:induction false} RunErrorSticks(rows: Rows, threeD: bool, codes: seq<int>, m: nat, n: nat)
    requires m <= n <= |codes|
    ensures Run(rows, threeD, codes, m).error.Some? ==> Run(rows, threeD, codes, n) == Run(rows, threeD, codes, m)
    decreases n
  {
    if m < n {
      RunErrorSticks(rows, threeD, codes, m, n - 1);
    }
  }

  lemma {:induction false} StrideSumPrefix(codes: seq<int>, n: nat)
    requires n <= |codes|
    ensures StrideSum(codes[..n]) <= StrideSum(codes)
    decreases |codes|
  {
    if n < |codes| {
      assert codes[..|codes| - 1][..n] == codes[..n];
      StrideSumPrefix(codes[..|codes| - 1], n);
    } else {
      assert codes[..n] == codes;
    }
  }

  lemma {:induction false} PlainStrides(n: nat)
    ensures StrideSum(Plain(n)) == n && Breaks(Plain(n)) == 0
  {
    if n > 0 {
      assert Plain(n)[..n - 1] == Plain(n - 1);
      PlainStrides(n - 1);
    }
  }

  /** Every row the codes consume is present and has the coordinates the calls read. */
  predicate Authored(rows: Rows, codes: seq<int>, threeD: bool) {
    && StrideSum(codes) <= |rows|
    && forall k :: 0 <= k < StrideSum(codes) ==> rows[k].Some? && |rows[k].value| >= (if threeD then 3 else 2)
  }

  /** A path whose codes consume only rows that are present and wide enough never throws. */
  lemma {:induction false} AuthoredRunCompletes(rows: Rows, threeD: bool, codes: seq<int>, n: nat)
    requires n <= |codes| && Authored(rows, codes, threeD)
    ensures Run(rows, threeD, codes, n).error.None?
  {
    if n > 0 {
      AuthoredRunCompletes(rows, threeD, codes, n - 1);
      var prev := Run(rows, threeD, codes, n - 1);
      var code := codes[n - 1];
      if Drawing(code) {
        RunIndex(rows, threeD, codes, n - 1);
        assert codes[..n] == codes[..n - 1] + [code];
        PrefixStep(codes[..n - 1], code);
        StrideSumPrefix(codes, n);
        RefsPresent(rows, threeD, code, prev.index);
      }
      assert Run(rows, threeD, codes, n) == Step(rows, threeD, prev, code);
    }
  }

  lemma RunIndex(rows: Rows, threeD: bool, codes: seq<int>, n: nat)
    requires n <= |codes| && Run(rows, threeD, codes, n).error.None?
    ensures Run(rows, threeD, codes, n).index == StrideSum(codes[..n])
  {
    RunInvariant(rows, threeD, codes, n);
  }

  /** The coordinates a drawing code reads exist when its rows are present and wide enough. */
  lemma RefsPresent(rows: Rows, threeD: bool, code: int, i: nat)
    requires i + Stride(code) <= |rows|
    requires forall k :: i <= k < i + Stride(code) ==> rows[k].Some? && |rows[k].value| >= (if threeD then 3 else 2)
    ensures Fetch(rows, Refs(code, i, threeD)).Ok?
  {
    var refs := Refs(code, i, threeD);
    forall k | 0 <= k < |refs| ensures Coord(rows, refs[k].0, refs[k].1).Ok? {
    }
  }

  /** Wrapping calls in beginShape() and endShape() adds no contour call. */
  lemma Wrapped(events: seq<Cmd>, m: int)
    ensures Count([BeginShape] + events + [EndShape(m)], BeginContour) == Count(events, BeginContour)
    ensures Count([BeginShape] + events + [EndShape(m)], EndContour) == Count(events, EndContour)
    ensures Nesting([BeginShape] + events + [EndShape(m)]) == Nesting(events)
  {
    CountAppend([BeginShape], events, BeginContour);
    CountAppend([BeginShape] + events, [EndShape(m)], BeginContour);
    CountAppend([BeginShape], events, EndContour);
    CountAppend([BeginShape] + events, [EndShape(m)], EndContour);
    NestingSnoc([BeginShape] + events, EndShape(m));
    NestingCons(BeginShape, events);
  }

  /** The endContour() for a contour left open completes the alternation. */
  lemma ClosingFacts(st: PathState, prefix: seq<int>)
    requires RunFacts(st, prefix)
    ensures var e := st.events + (if st.inside then [EndContour] else []);
      && Count(e, BeginContour) == Breaks(prefix) && Count(e, EndContour) == Breaks(prefix)
      && Nesting(e) == Some(false)
  {
    var closing := if st.inside then [EndContour] else [];
    CountAppend(st.events, closing, BeginContour);
    CountAppend(st.events, closing, EndContour);
    if st.inside {
      NestingSnoc(st.events, EndContour);
    } else {
      assert st.events + closing == st.events;
    }
  }

  /** The events of a path whose codes all ran, wrapped in beginShape() and endShape(m). */
  function Finished(st: PathState, m: int): seq<Cmd> {
    [BeginShape] + st.events + (if st.inside then [EndContour] else []) + [EndShape(m)]
  }

  lemma FinishedFacts(st: PathState, prefix: seq<int>, m: int)
    requires RunFacts(st, prefix)
    ensures var t := Finished(st, m);
      && Count(t, BeginContour) == Breaks(prefix) && Count(t, EndContour) == Breaks(prefix)
      && Nesting(t) == Some(false)
  {
    ClosingFacts(st, prefix);
    var e := st.events + (if st.inside then [EndContour] else []);
    Wrapped(e, m);
    assert Finished(st, m) == [BeginShape] + e + [EndShape(m)];
  }

  /**
   * A finished path replay starts with beginShape(), ends with
   * endShape(CLOSE iff close), sends one beginContour() and one
   * endContour() per BREAK code, and its contour calls alternate
   * beginContour(), endContour(), ... with none left open.
   */
  lemma PathBracketing(rows: Rows, count: int, codes: Option<seq<int>>, close: bool)
    requires PathTrace(Some(rows), count, codes, close).error.None?
    ensures var t := PathTrace(Some(rows), count, codes, close).events;
      var breaks := if codes.None? then 0 else Breaks(codes.value);
      && |t| >= 2 && t[0] == BeginShape && t[|t| - 1] == EndShape(if close then CLOSE else OPEN)
      && Count(t, BeginContour) == breaks && Count(t, EndContour) == breaks
      && Nesting(t) == Some(false)
  {
    var threeD := Probe(rows).value;
    var cs := if codes.None? then Plain(Iterations(count)) else codes.value;
    var st := Run(rows, threeD, cs, |cs|);
    assert PathTrace(Some(rows), count, codes, close).events == Finished(st, EndMode(close));
    assert cs[..|cs|] == cs;
    RunInvariant(rows, threeD, cs, |cs|);
    if codes.None? { PlainStrides(Iterations(count)); }
    FinishedFacts(st, cs, EndMode(close));
  }
  /** A path from authored shapes (present rows, wide enough) always finishes. */
  lemma AuthoredPathCompletes(rows: Rows, count: int, codes: Option<seq<int>>, close: bool)
    requires Probe(rows).Ok?
    requires Authored(rows, if codes.None? then Plain(Iterations(count)) else codes.value, Probe(rows).value)
    ensures PathTrace(Some(rows), count, codes, close).error.None?
  {
    var cs := if codes.None? then Plain(Iterations(count)) else codes.value;
    AuthoredRunCompletes(rows, Probe(rows).value, cs, |cs|);
  }

  /**
   * The codes drawPath() reads, `mvertexCodes!![j]` for j below
   * mvertexCodeCount: none at a zero count (every row is a plain vertex),
   * all of them when they fit, else as many as there are before the read
   * that throws.
   */
  datatype CodeStream = Uncoded | Coded(codes: seq<int>) | Cut(present: seq<int>, fault: Exception)

  function Stream(codes: Option<seq<int>>, codeCount: int): (r: CodeStream)
    ensures r.Cut? <==> codeCount > 0 && (codes.None? || codeCount > |codes.value|)
    ensures r.Coded? && codes.Some? && codeCount > 0 ==> r.codes == codes.value[..codeCount]
  {
    if codeCount == 0 then Uncoded
    else if codeCount < 0 then Coded([])
    else if codes.None? then Cut([], NullPointer)
    else if codeCount <= |codes.value| then Coded(codes.value[..codeCount])
    else Cut(codes.value, IndexOutOfBounds)
  }

  /** The codes the loop of drawPath() runs over: with no codes, a plain VERTEX per vertex in use. */
  function StreamCodes(stream: CodeStream, count: int): seq<int> {
    match stream
    case Uncoded => Plain(Iterations(count))
    case Coded(cs) => cs
    case Cut(cs, _) => cs
  }

  /**
   * drawPath() over the stream of codes it reads: nothing without rows,
   * and an exception whenever the code count runs past the codes.
   */
  function DrawnPath(rows: Option<Rows>, count: int, stream: CodeStream, close: bool): (r: Replay)
    ensures rows.None? ==> r == Emit([])
    ensures rows.Some? && stream.Cut? ==> r.error.Some?
  {
    match stream
    case Uncoded => PathTrace(rows, count, None, close)
    case Coded(cs) => PathTrace(rows, count, Some(cs), close)
    case Cut(cs, fault) =>
      match rows
      case None => Emit([])
      case Some(rs) =>
        match Probe(rs)
        case Throws(e) => Replay([BeginShape], Some(e))
        case Ok(threeD) =>
          var st := Run(rs, threeD, cs, |cs|);
          Replay([BeginShape] + st.events, if st.error.Some? then st.error else Some(fault))
  }

  /** The loop variables after drawPath's loop: the run over the codes read, then the fault of a cut stream. */
  function Looped(rows: Rows, threeD: bool, stream: CodeStream, count: int): PathState {
    var cs := StreamCodes(stream, count);
    var st := Run(rows, threeD, cs, |cs|);
    if st.error.None? && stream.Cut? then st.(error := Some(stream.fault)) else st
  }

  /** drawPath() once the first row is probed: the calls of the loop, closed unless the loop threw. */
  lemma DrawnPathLooped(rs: Rows, count: int, stream: CodeStream, close: bool)
    requires Probe(rs).Ok?
    ensures var l := Looped(rs, Probe(rs).value, stream, count);
      DrawnPath(Some(rs), count, stream, close)
      == if l.error.Some? then Replay([BeginShape] + l.events, l.error)
         else Emit([BeginShape] + l.events + (if l.inside then [EndContour] else []) + [EndShape(EndMode(close))])
  {
  }

  /** On codes that fit, drawPath() gives the path replay with one contour per BREAK in use. */
  lemma DrawnPathBracketing(rows: Rows, count: int, codes: seq<int>, codeCount: int, close: bool)
    requires 0 < codeCount <= |codes|
    requires DrawnPath(Some(rows), count, Stream(Some(codes), codeCount), close).error.None?
    ensures var t := DrawnPath(Some(rows), count, Stream(Some(codes), codeCount), close).events;
      && t[0] == BeginShape && t[|t| - 1] == EndShape(EndMode(close))
      && Count(t, BeginContour) == Breaks(codes[..codeCount]) && Count(t, EndContour) == Breaks(codes[..codeCount])
      && Nesting(t) == Some(false)
  {
    PathBracketing(rows, count, Some(codes[..codeCount]), close);
  }

  // ---------------------------------------------------------------------
  // drawGeometry()

  /** One iteration of drawGeometry's loops: vertex(row) with styles, else vertex(x, y[, z]). */
  function GeometryVertex(rows: Option<Rows>, style: bool, i: nat): (r: Result<Cmd>)
    ensures r.Ok? ==> rows.Some? && i < |rows.value|
    ensures r.Ok? && style ==> r.value == VertexRow(rows.value[i])
  {
    match rows
    case None => Throws(NullPointer)
    case Some(rs) =>
      if i >= |rs| then Throws(IndexOutOfBounds)
      else if style then Ok(VertexRow(rs[i]))
      else match Coord(rs, i, Z)
        case Throws(e) => Throws(e)
        case Ok(z) =>
          var row := rs[i].value;
          if z == 0.0 then Ok(Vertex([row[X], row[Y]])) else Ok(Vertex([row[X], row[Y], row[Z]]))
  }

  /** The first n iterations. */
  function GeometryRun(rows: Option<Rows>, style: bool, n: nat): Replay {
    if n == 0 then Emit([])
    else
      var prev := GeometryRun(rows, style, n - 1);
      if prev.error.Some? then prev
      else match GeometryVertex(rows, style, n - 1)
        case Throws(e) => Replay(prev.events, Some(e))
        case Ok(c) => Emit(prev.events + [c])
  }

  /** drawGeometry(): beginShape(kind), one vertex call per vertex, endShape(). */
  function GeometryTrace(rows: Option<Rows>, count: int, kind: int, style: bool, close: bool): Replay {
    Then(Then(Emit([BeginShapeKind(kind)]), GeometryRun(rows, style, Iterations(count))), Emit([EndShape(EndMode(close))]))
  }

  /** The call drawGeometry() makes for row k: the row itself with styles, else x, y and a non-zero z. */
  predicate CallFor(rs: Rows, style: bool, k: nat, c: Cmd)
    requires k < |rs|
  {
    if style then c == VertexRow(rs[k])
    else
      && rs[k].Some? && |rs[k].value| > Z
      && c == Vertex(if rs[k].value[Z] == 0.0 then rs[k].value[..2] else rs[k].value[..3])
  }

  lemma GeometryVertexCall(rows: Option<Rows>, style: bool, i: nat)
    requires GeometryVertex(rows, style, i).Ok?
    ensures rows.Some? && i < |rows.value| && CallFor(rows.value, style, i, GeometryVertex(rows, style, i).value)
  {
    if !style {
      var row := rows.value[i].value;
      assert row[..2] == [row[X], row[Y]];
      assert row[..3] == [row[X], row[Y], row[Z]];
    }
  }

  /** A run that did not throw made one call per vertex, in order. */
  lemma {:induction false} GeometryRunCalls(rows: Option<Rows>, style: bool, n: nat)
    requires GeometryRun(rows, style, n).error.None?
    ensures |GeometryRun(rows, style, n).events| == n
    ensures n > 0 ==> rows.Some? && n <= |rows.value|
    ensures n > 0 ==> forall k :: 0 <= k < n ==> CallFor(rows.value, style, k, GeometryRun(rows, style, n).events[k])
  {
    if n > 0 {
      GeometryRunCalls(rows, style, n - 1);
      GeometryVertexCall(rows, style, n - 1);
      var prev := GeometryRun(rows, style, n - 1).events;
      var t := GeometryRun(rows, style, n).events;
      assert t == prev + [GeometryVertex(rows, style, n - 1).value];
      forall k | 0 <= k < n ensures CallFor(rows.value, style, k, t[k]) {
        if k < n - 1 { assert t[k] == prev[k]; }
      }
    }
  }

  /**
   * drawGeometry() throws exactly when a vertex it visits is missing, or,
   * without styles, is null or has no z.
   */
  lemma {:induction false} GeometryRunThrows(rows: Option<Rows>, style: bool, n: nat)
    ensures GeometryRun(rows, style, n).error.None? <==>
      (n == 0 || (rows.Some? && n <= |rows.value| &&
        (!style ==> forall k :: 0 <= k < n ==> rows.value[k].Some? && |rows.value[k].value| > Z)))
  {
    if n > 0 {
      GeometryRunThrows(rows, style, n - 1);
    }
  }

  /** Once a vertex read throws, the later iterations do not run. */
  lemma {:induction false} GeometryRunSticks(rows: Option<Rows>, style: bool, m: nat, n: nat)
    requires m <= n
    ensures GeometryRun(rows, style, m).error.Some? ==> GeometryRun(rows, style, n) == GeometryRun(rows, style, m)
    decreases n
  {
    if m < n {
      GeometryRunSticks(rows, style, m, n - 1);
    }
  }
}
