/**
 * draw(): what a shape sends to the renderer for itself. pre() and post()
 * bracket the shape's own calls with the matrix and style stacks,
 * drawImpl() dispatches on the family, and drawPrimitive() on the kind and
 * the number of parameters. The model takes the renderer to be present; a
 * null renderer is not modelled.
 */
module Drawing {
  import opened Base
  import opened Constants
  import opened Render
  import opened Transforms
  import opened Int32Ops
  import opened Paths
  import opened ImageSource

  /** The style fields styles() hands to the renderer. */
  datatype StyleData = StyleData(stroke: bool, strokeColor: Int32, strokeWeight: real, strokeCap: int,
                                 strokeJoin: int, fill: bool, fillColor: Int32)

  /** styles(): the stroke settings or noStroke(), then fill(fillColor) or noFill(). */
  function Styles(s: StyleData): seq<Cmd> {
    (if s.stroke then [Stroke(s.strokeColor), StrokeWeight(s.strokeWeight), StrokeCap(s.strokeCap), StrokeJoin(s.strokeJoin)]
     else [NoStroke])
    + (if s.fill then [Fill(s.fillColor)] else [NoFill])
  }

  /** pre(): push and apply the shape's matrix if it has one; push the style and set it if styles are on. */
  function Pre(matrix: Matrix, style: bool, s: StyleData): seq<Cmd> {
    (if matrix.NoMatrix? then [] else [PushMatrix, ApplyMatrix(matrix)])
    + (if style then [PushStyle] + Styles(s) else [])
  }

  /** post(): pop the matrix, then the style, under the same conditions. */
  function Post(matrix: Matrix, style: bool): seq<Cmd> {
    (if matrix.NoMatrix? then [] else [PopMatrix]) + (if style then [PopStyle] else [])
  }

  // ---------------------------------------------------------------------
  // drawPrimitive()

  /** `mparams!![0]`, ..., `mparams!![n - 1]` read in order. */
  function Params(params: Option<seq<real>>, n: nat): (r: Result<seq<real>>)
    ensures r.Ok? <==> params.Some? && n <= |params.value|
    ensures r.Ok? ==> r.value == params.value[..n]
    ensures params.None? ==> r == Throws(NullPointer)
  {
    match params
    case None => Throws(NullPointer)
    case Some(p) => if n <= |p| then Ok(p[..n]) else Throws(IndexOutOfBounds)
  }

  /** A drawing call with the parameters it reads; nothing is drawn when a read throws. */
  function Call(before: seq<Cmd>, c: Primitive, args: Result<seq<real>>): Replay {
    match args
    case Throws(e) => Replay(before, Some(e))
    case Ok(a) => Emit(before + [Draw(c, a)])
  }

  /** Which of the rect() and arc() overloads: the number of parameters, or 0 for none of them. */
  function RectArity(size: nat): nat { if size == 4 || size == 5 || size == 8 then size else 0 }
  function ArcArity(size: nat): nat { if size == 6 || size == 7 then size else 0 }

  /** The rect() branch with an image: imageMode(CORNER), image(), imageMode(old). */
  function ImageTrace(params: Option<seq<real>>, img: Image): Replay {
    match Params(params, 4)
    case Throws(e) => Replay([SetImageMode(CORNER)], Some(e))
    case Ok(a) => Emit([SetImageMode(CORNER), DrawImage(img, a), RestoreImageMode])
  }

  /** The rect() branch without an image: rectMode(rectMode), the overload for the size, rectMode(old). */
  function RectTrace(params: Option<seq<real>>, rectMode: int): Replay {
    match params
    case None => Replay([SetRectMode(rectMode)], Some(NullPointer))
    case Some(p) =>
      var n := RectArity(|p|);
      if n == 0 then Emit([SetRectMode(rectMode), RestoreRectMode])
      else Emit([SetRectMode(rectMode), Draw(RectCall, p[..n]), RestoreRectMode])
  }

  /** The arc() branch: ellipseMode(ellipseMode), arc() with six or, with a mode, seven parameters, ellipseMode(old). */
  function ArcTrace(params: Option<seq<real>>, ellipseMode: int): Replay {
    match params
    case None => Replay([SetEllipseMode(ellipseMode)], Some(NullPointer))
    case Some(p) =>
      if |p| == 6 then Emit([SetEllipseMode(ellipseMode), Draw(ArcCall, p[..6]), RestoreEllipseMode])
      else if |p| == 7 then Emit([SetEllipseMode(ellipseMode), ArcWithMode(p[..6], ToInt(p[6])), RestoreEllipseMode])
      else Emit([SetEllipseMode(ellipseMode), RestoreEllipseMode])
  }

  /**
   * drawPrimitive() once the image, if any, is loaded: the call for the
   * kind with the parameters it reads, between mode changes for rect,
   * ellipse and arc.
   */
  function PrimitiveTrace(kind: int, params: Option<seq<real>>, rectMode: int, ellipseMode: int,
                          image: Option<Image>): Replay {
    if kind == POINT then Call([], PointCall, Params(params, 2))
    else if kind == LINE then
      if params.None? then Replay([], Some(NullPointer))
      else Call([], LineCall, Params(params, if |params.value| == 4 then 4 else 6))
    else if kind == TRIANGLE then Call([], TriangleCall, Params(params, 6))
    else if kind == QUAD then Call([], QuadCall, Params(params, 8))
    else if kind == RECT then
      if image.Some? then ImageTrace(params, image.value) else RectTrace(params, rectMode)
    else if kind == ELLIPSE then
      match Params(params, 4)
      case Throws(e) => Replay([SetEllipseMode(ellipseMode)], Some(e))
      case Ok(a) => Emit([SetEllipseMode(ellipseMode), Draw(EllipseCall, a), RestoreEllipseMode])
    else if kind == ARC then ArcTrace(params, ellipseMode)
    else if kind == BOX then
      if params.None? then Replay([], Some(NullPointer))
      else Call([], BoxCall, Params(params, if |params.value| == 1 then 1 else 3))
    else if kind == SPHERE then Call([], SphereCall, Params(params, 1))
    else Emit([])
  }

  /** How many parameters the call for a kind reads, given how many there are; 0 when no call is made. */
  function Arity(kind: int, size: nat, textured: bool): nat {
    if kind == POINT then 2
    else if kind == LINE then (if size == 4 then 4 else 6)
    else if kind == TRIANGLE then 6
    else if kind == QUAD then 8
    else if kind == RECT then (if textured then 4 else RectArity(size))
    else if kind == ELLIPSE then 4
    else if kind == ARC then ArcArity(size)
    else if kind == BOX then (if size == 1 then 1 else 3)
    else if kind == SPHERE then 1
    else 0
  }

  predicate IsDrawCall(c: Cmd) { c.Draw? || c.ArcWithMode? || c.DrawImage? }

  /** The parameters a drawing call received: arc's trailing mode counts as one. */
  function CallArgs(c: Cmd): seq<real>
    requires IsDrawCall(c)
  {
    match c
    case Draw(_, a) => a
    case ArcWithMode(a, _) => a
    case DrawImage(_, a) => a
  }

  function ArgCount(c: Cmd): nat
    requires IsDrawCall(c)
  {
    |CallArgs(c)| + (if c.ArcWithMode? then 1 else 0)
  }

  /** The drawing calls of a trace, in order. */
  function DrawCalls(s: seq<Cmd>): (r: seq<Cmd>)
    ensures forall k :: 0 <= k < |r| ==> IsDrawCall(r[k])
    decreases |s|
  {
    if s == [] then [] else (if IsDrawCall(s[0]) then [s[0]] else []) + DrawCalls(s[1..])
  }

  function Keep(c: Cmd): seq<Cmd> { if IsDrawCall(c) then [c] else [] }

  lemma DrawCallsOf1(a: Cmd)
    ensures DrawCalls([a]) == Keep(a)
  {
    assert [a][1..] == [];
  }

  lemma DrawCallsOf2(a: Cmd, b: Cmd)
    ensures DrawCalls([a, b]) == Keep(a) + Keep(b)
  {
    assert [a, b][1..] == [b];
    DrawCallsOf1(b);
  }

  lemma DrawCallsOf3(a: Cmd, b: Cmd, c: Cmd)
    ensures DrawCalls([a, b, c]) == Keep(a) + Keep(b) + Keep(c)
  {
    assert [a, b, c][1..] == [b, c];
    DrawCallsOf2(b, c);
  }

  /** The facts PrimitiveCalls states, for one trace of at most three calls. */
  predicate CallsAsArity(t: Replay, p: seq<real>, n: nat) {
    && (t.error.None? <==> n <= |p|)
    && (t.error.None? ==> |DrawCalls(t.events)| == (if n == 0 then 0 else 1))
    && (t.error.None? && n > 0 ==>
          var c := DrawCalls(t.events)[0];
          ArgCount(c) == n && CallArgs(c) <= p && (c.ArcWithMode? ==> |p| > 6 && c.arcMode == ToInt(p[6])))
  }

  lemma CallArity(c: Primitive, p: seq<real>, n: nat)
    requires n > 0
    ensures CallsAsArity(Call([], c, Params(Some(p), n)), p, n)
  {
    if n <= |p| {
      DrawCallsOf1(Draw(c, p[..n]));
      assert [] + [Draw(c, p[..n])] == [Draw(c, p[..n])];
    }
  }

  lemma ImageArity(p: seq<real>, img: Image)
    ensures CallsAsArity(ImageTrace(Some(p), img), p, 4)
  {
    if 4 <= |p| {
      DrawCallsOf3(SetImageMode(CORNER), DrawImage(img, p[..4]), RestoreImageMode);
    }
  }

  lemma RectArityFacts(p: seq<real>, rectMode: int)
    ensures CallsAsArity(RectTrace(Some(p), rectMode), p, RectArity(|p|))
  {
    var n := RectArity(|p|);
    if n == 0 {
      DrawCallsOf2(SetRectMode(rectMode), RestoreRectMode);
    } else {
      DrawCallsOf3(SetRectMode(rectMode), Draw(RectCall, p[..n]), RestoreRectMode);
    }
  }

  lemma EllipseArity(p: seq<real>, ellipseMode: int)
    ensures CallsAsArity(PrimitiveTrace(ELLIPSE, Some(p), 0, ellipseMode, None), p, 4)
  {
    if 4 <= |p| {
      DrawCallsOf3(SetEllipseMode(ellipseMode), Draw(EllipseCall, p[..4]), RestoreEllipseMode);
    }
  }

  lemma ArcArityFacts(p: seq<real>, ellipseMode: int)
    ensures CallsAsArity(ArcTrace(Some(p), ellipseMode), p, ArcArity(|p|))
  {
    if |p| == 6 {
      DrawCallsOf3(SetEllipseMode(ellipseMode), Draw(ArcCall, p[..6]), RestoreEllipseMode);
    } else if |p| == 7 {
      DrawCallsOf3(SetEllipseMode(ellipseMode), ArcWithMode(p[..6], ToInt(p[6])), RestoreEllipseMode);
    } else {
      DrawCallsOf2(SetEllipseMode(ellipseMode), RestoreEllipseMode);
    }
  }

  /**
   * With parameters present, a primitive draws exactly when it has at
   * least as many as its call reads: then it makes one drawing call (none
   * for an unknown kind or an unmatched rect/arc size) with the first
   * Arity parameters, an arc with seven taking the seventh as its mode.
   */
  lemma PrimitiveCalls(kind: int, p: seq<real>, rectMode: int, ellipseMode: int, image: Option<Image>)
    ensures CallsAsArity(PrimitiveTrace(kind, Some(p), rectMode, ellipseMode, image), p, Arity(kind, |p|, image.Some?))
  {
    var n := Arity(kind, |p|, image.Some?);
    if kind == POINT { CallArity(PointCall, p, n); }
    else if kind == LINE { CallArity(LineCall, p, n); }
    else if kind == TRIANGLE { CallArity(TriangleCall, p, n); }
    else if kind == QUAD { CallArity(QuadCall, p, n); }
    else if kind == RECT {
      if image.Some? { ImageArity(p, image.value); } else { RectArityFacts(p, rectMode); }
    }
    else if kind == ELLIPSE { EllipseArity(p, ellipseMode); }
    else if kind == ARC { ArcArityFacts(p, ellipseMode); }
    else if kind == BOX { CallArity(BoxCall, p, n); }
    else if kind == SPHERE { CallArity(SphereCall, p, n); }
  }

  /** Every primitive that reads parameters throws NullPointerException without them. */
  lemma PrimitiveWithoutParams(kind: int, rectMode: int, ellipseMode: int, image: Option<Image>)
    requires Arity(kind, 0, image.Some?) > 0 || kind == RECT || kind == ARC
    ensures PrimitiveTrace(kind, None, rectMode, ellipseMode, image).error == Some(NullPointer)
  {
  }

  /**
   * The mode changes are undone: a rect, ellipse or arc that did not throw
   * starts by setting its mode and ends by restoring it.
   */
  lemma PrimitiveModesRestored(kind: int, params: Option<seq<real>>, rectMode: int, ellipseMode: int, image: Option<Image>)
    requires kind == RECT || kind == ELLIPSE || kind == ARC
    requires PrimitiveTrace(kind, params, rectMode, ellipseMode, image).error.None?
    ensures var t := PrimitiveTrace(kind, params, rectMode, ellipseMode, image).events;
      && |t| >= 2
      && (if kind == RECT && image.Some? then t[0] == SetImageMode(CORNER) && t[|t| - 1] == RestoreImageMode
          else if kind == RECT then t[0] == SetRectMode(rectMode) && t[|t| - 1] == RestoreRectMode
          else t[0] == SetEllipseMode(ellipseMode) && t[|t| - 1] == RestoreEllipseMode)
  {
    if kind == RECT && image.None? {
      assert params.Some?;
    }
  }

  // ---------------------------------------------------------------------
  // loadImage()

  /** setTexture(tex): refused while the shape is open. */
  function Textured(image: Option<Image>, openShape: bool, tex: Image): Option<Image> {
    if openShape then image else Some(tex)
  }

  /**
   * The image after loadImage() once the path has been resolved: a data
   * URL's bytes decoded (alpha checked for gif, png and unknown), a file
   * URL's image from the application's loader; an exception while
   * resolving propagates, and a failed decode or load keeps the old image.
   */
  function LoadedFrom(source: Result<Source>, image: Option<Image>, openShape: bool, loader: string -> Option<Image>)
    : Result<Option<Image>>
  {
    match source
    case Throws(e) => Throws(e)
    case Ok(src) =>
      match src
      case Embedded(extension, bytes) => Ok(Textured(image, openShape, Decoded(extension, bytes, NeedsAlphaCheck(extension))))
      case Undecodable(_) => Ok(image)
      case FileSystem(file) => if loader(file).Some? then Ok(Textured(image, openShape, loader(file).value)) else Ok(image)
      case NoSource => Ok(image)
  }

  /** loadImage() as written: the path resolved with the payload of a data URL read as hex. */
  function LoadedImage(path: string, image: Option<Image>, openShape: bool, loader: string -> Option<Image>)
    : Result<Option<Image>>
  {
    LoadedFrom(SourceAsWritten(path), image, openShape, loader)
  }

  /**
   * As written, a data URL's texture is what parseHexBinary makes of its
   * base64 text: a NumberFormatException or IllegalArgumentException
   * unless that text also reads as hex, and then the hex bytes.
   */
  lemma LoadsDataUrl(extension: string, bytes: seq<Byte>, image: Option<Image>, loader: string -> Option<Image>)
    requires forall k :: 0 <= k < |extension| ==> extension[k] != ';'
    ensures LoadedImage(DataUrl(extension, bytes), image, false, loader)
         == match HexDecode(Base64.Encode(bytes))
            case Throws(e) => Throws(e)
            case Ok(hex) => Ok(Some(Decoded(extension, hex, NeedsAlphaCheck(extension))))
  {
    DataUrlParts(extension, bytes);
  }

  /** As written, drawing the PNG signature's data URL throws NumberFormatException while loading it. */
  lemma PngUrlThrows(image: Option<Image>, openShape: bool, loader: string -> Option<Image>)
    ensures LoadedImage(PngUrl, image, openShape, loader) == Throws(NumberFormat)
  {
    AsWrittenRejectsPngUrl();
  }

  /** With the payload decoded as base64, a data URL's bytes become the shape's image when it is not open. */
  lemma LoadsDataUrlCorrected(extension: string, bytes: seq<Byte>, image: Option<Image>, loader: string -> Option<Image>)
    requires forall k :: 0 <= k < |extension| ==> extension[k] != ';'
    ensures LoadedFrom(SourceOf(DataUrl(extension, bytes)), image, false, loader)
         == Ok(Some(Decoded(extension, bytes, NeedsAlphaCheck(extension))))
  {
    DataUrlRoundTrip(extension, bytes);
  }

  /** A file URL is handed to the loader without its scheme. */
  lemma LoadsFileUrl(path: string, image: Option<Image>, loader: string -> Option<Image>)
    ensures LoadedImage(FileScheme + path, image, false, loader)
         == Ok(if loader(path).Some? then loader(path) else image)
  {
    FileUrl(path);
  }

  // ---------------------------------------------------------------------
  // draw()

  /** What draw() reads of a shape. */
  datatype ShapeData = ShapeData(
    family: int, kind: int, visible: bool, matrix: Matrix, style: bool, styles: StyleData,
    params: Option<seq<real>>, rows: Option<Rows>, vertexCount: int, codes: CodeStream, close: bool,
    rectMode: int, ellipseMode: int, image: Option<Image>, imagePath: Option<string>, openShape: bool)

  /** drawPrimitive() including the load of a pending image path for a rect. */
  function PrimitiveDraw(d: ShapeData, loader: string -> Option<Image>): Replay {
    if d.kind == RECT && d.imagePath.Some? then
      match LoadedImage(d.imagePath.value, d.image, d.openShape, loader)
      case Throws(e) => Replay([], Some(e))
      case Ok(img) => PrimitiveTrace(d.kind, d.params, d.rectMode, d.ellipseMode, img)
    else PrimitiveTrace(d.kind, d.params, d.rectMode, d.ellipseMode, d.image)
  }

  /** drawImpl(): the children for a group, else the shape's own calls for its family. */
  function Impl(d: ShapeData, loader: string -> Option<Image>, children: Replay): Replay {
    if d.family == GROUP then children
    else if d.family == PRIMITIVE then PrimitiveDraw(d, loader)
    else if d.family == GEOMETRY then GeometryTrace(d.rows, d.vertexCount, d.kind, d.style, d.close)
    else if d.family == PATH then DrawnPath(d.rows, d.vertexCount, d.codes, d.close)
    else Emit([])
  }

  /** draw(): nothing when invisible, else pre(), drawImpl(), post(). */
  function NodeTrace(d: ShapeData, loader: string -> Option<Image>, children: Replay): Replay {
    if !d.visible then Emit([])
    else Then(Emit(Pre(d.matrix, d.style, d.styles)), Then(Impl(d, loader, children), Emit(Post(d.matrix, d.style))))
  }

  // ---------------------------------------------------------------------
  // Bracketing

  predicate NoStack(c: Cmd) { !c.PushMatrix? && !c.PopMatrix? && !c.PushStyle? && !c.PopStyle? }

  /** Calls that touch neither stack. */
  predicate Flat(s: seq<Cmd>) { forall k :: 0 <= k < |s| ==> NoStack(s[k]) }

  lemma {:induction false} FlatIsBalanced(s: seq<Cmd>)
    requires Flat(s)
    ensures Count(s, PushMatrix) == 0 && Count(s, PopMatrix) == 0
    ensures Count(s, PushStyle) == 0 && Count(s, PopStyle) == 0
    decreases |s|
  {
    if s != [] {
      FlatIsBalanced(s[1..]);
    }
  }

  /** Calls that touch neither stack are trivially balanced. */
  lemma FlatBalanced(s: seq<Cmd>)
    requires Flat(s)
    ensures Balanced(s)
  {
    FlatIsBalanced(s);
    forall k | 0 <= k <= |s|
      ensures Count(s[..k], PopMatrix) == 0 && Count(s[..k], PopStyle) == 0
    {
      assert Flat(s[..k]);
      FlatIsBalanced(s[..k]);
    }
  }

  lemma {:induction false} RunFlat(rows: Rows, threeD: bool, codes: seq<int>, n: nat)
    requires n <= |codes|
    ensures Flat(Run(rows, threeD, codes, n).events)
  {
    if n > 0 {
      RunFlat(rows, threeD, codes, n - 1);
    }
  }

  lemma {:induction false} GeometryRunFlat(rows: Option<Rows>, style: bool, n: nat)
    ensures Flat(GeometryRun(rows, style, n).events)
  {
    if n > 0 {
      GeometryRunFlat(rows, style, n - 1);
    }
  }

  lemma PathFlat(rows: Option<Rows>, count: int, codes: Option<seq<int>>, close: bool)
    ensures Flat(PathTrace(rows, count, codes, close).events)
  {
    if rows.Some? && Probe(rows.value).Ok? {
      var cs := if codes.None? then Plain(Iterations(count)) else codes.value;
      var st := Run(rows.value, Probe(rows.value).value, cs, |cs|);
      RunFlat(rows.value, Probe(rows.value).value, cs, |cs|);
      var e := st.events;
      if st.error.None? {
        var t := [BeginShape] + e + (if st.inside then [EndContour] else []) + [EndShape(EndMode(close))];
        assert PathTrace(rows, count, codes, close).events == t;
        forall k | 0 <= k < |t| ensures NoStack(t[k]) {
          if 1 <= k <= |e| { assert t[k] == e[k - 1]; }
        }
      } else {
        assert PathTrace(rows, count, codes, close).events == [BeginShape] + e;
      }
    }
  }

  lemma DrawnPathFlat(rows: Option<Rows>, count: int, stream: CodeStream, close: bool)
    ensures Flat(DrawnPath(rows, count, stream, close).events)
  {
    match stream
    case Uncoded => PathFlat(rows, count, None, close);
    case Coded(cs) => PathFlat(rows, count, Some(cs), close);
    case Cut(cs, _) =>
      if rows.Some? && Probe(rows.value).Ok? {
        var e := Run(rows.value, Probe(rows.value).value, cs, |cs|).events;
        RunFlat(rows.value, Probe(rows.value).value, cs, |cs|);
        assert DrawnPath(rows, count, stream, close).events == [BeginShape] + e;
        forall k | 0 <= k < |e| + 1 ensures NoStack(([BeginShape] + e)[k]) {
          if k >= 1 { assert ([BeginShape] + e)[k] == e[k - 1]; }
        }
      }
  }

  lemma GeometryFlat(rows: Option<Rows>, count: int, kind: int, style: bool, close: bool)
    ensures Flat(GeometryTrace(rows, count, kind, style, close).events)
  {
    GeometryRunFlat(rows, style, Iterations(count));
  }

  lemma PrimitiveTraceFlat(kind: int, params: Option<seq<real>>, rectMode: int, ellipseMode: int, image: Option<Image>)
    ensures Flat(PrimitiveTrace(kind, params, rectMode, ellipseMode, image).events)
  {
    var t := PrimitiveTrace(kind, params, rectMode, ellipseMode, image);
    if kind == RECT {
      if image.Some? {
        assert t == ImageTrace(params, image.value);
        ImageTraceFlat(params, image.value);
      } else {
        assert t == RectTrace(params, rectMode);
        RectTraceFlat(params, rectMode);
      }
    } else if kind == ARC {
      assert t == ArcTrace(params, ellipseMode);
      ArcTraceFlat(params, ellipseMode);
    } else if kind == ELLIPSE {
      assert Flat(t.events);
    } else {
      CallsFlat(kind, params);
    }
  }

  lemma ImageTraceFlat(params: Option<seq<real>>, img: Image)
    ensures Flat(ImageTrace(params, img).events)
  {
  }

  lemma RectTraceFlat(params: Option<seq<real>>, rectMode: int)
    ensures Flat(RectTrace(params, rectMode).events)
  {
  }

  lemma ArcTraceFlat(params: Option<seq<real>>, ellipseMode: int)
    ensures Flat(ArcTrace(params, ellipseMode).events)
  {
  }

  lemma CallFlat(c: Primitive, args: Result<seq<real>>)
    ensures Flat(Call([], c, args).events)
  {
  }

  /** The kinds whose branch is one drawing call and no mode change. */
  lemma CallsFlat(kind: int, params: Option<seq<real>>)
    requires kind != RECT && kind != ARC && kind != ELLIPSE
    ensures Flat(PrimitiveTrace(kind, params, 0, 0, None).events)
    ensures forall rectMode, ellipseMode, image :: PrimitiveTrace(kind, params, rectMode, ellipseMode, image) == PrimitiveTrace(kind, params, 0, 0, None)
  {
    if kind == POINT {
      CallFlat(PointCall, Params(params, 2));
    } else if kind == LINE && params.Some? {
      CallFlat(LineCall, Params(params, if |params.value| == 4 then 4 else 6));
    } else if kind == TRIANGLE {
      CallFlat(TriangleCall, Params(params, 6));
    } else if kind == QUAD {
      CallFlat(QuadCall, Params(params, 8));
    } else if kind == BOX && params.Some? {
      CallFlat(BoxCall, Params(params, if |params.value| == 1 then 1 else 3));
    } else if kind == SPHERE {
      CallFlat(SphereCall, Params(params, 1));
    }
  }

  lemma PrimitiveFlat(d: ShapeData, loader: string -> Option<Image>)
    ensures Flat(PrimitiveDraw(d, loader).events)
  {
    if d.kind == RECT && d.imagePath.Some? {
      var img := LoadedImage(d.imagePath.value, d.image, d.openShape, loader);
      if img.Ok? {
        PrimitiveTraceFlat(d.kind, d.params, d.rectMode, d.ellipseMode, img.value);
      }
    } else {
      PrimitiveTraceFlat(d.kind, d.params, d.rectMode, d.ellipseMode, d.image);
    }
  }

  /** The shape's own calls, of every family but GROUP, touch neither stack. */
  lemma ImplFlat(d: ShapeData, loader: string -> Option<Image>, children: Replay)
    requires d.family != GROUP
    ensures Flat(Impl(d, loader, children).events)
  {
    if d.family == PRIMITIVE {
      PrimitiveFlat(d, loader);
    } else if d.family == GEOMETRY {
      GeometryFlat(d.rows, d.vertexCount, d.kind, d.style, d.close);
    } else if d.family == PATH {
      DrawnPathFlat(d.rows, d.vertexCount, d.codes, d.close);
    }
  }

  lemma CountOne(c: Cmd, x: Cmd)
    ensures Count([c], x) == (if c == x then 1 else 0)
  {
    assert [c][1..] == [];
  }

  lemma StylesCount(s: StyleData, x: Cmd)
    requires x == PushMatrix || x == PopMatrix || x == PushStyle || x == PopStyle
    ensures Count(Styles(s), x) == 0
  {
    assert Flat(Styles(s));
    FlatIsBalanced(Styles(s));
  }

  /** pre() pushes the matrix when there is one and the style when styles are on. */
  lemma PreCounts(m: Matrix, style: bool, s: StyleData, x: Cmd)
    requires x == PushMatrix || x == PopMatrix || x == PushStyle || x == PopStyle
    ensures Count(Pre(m, style, s), x) == (if x == PushMatrix then (if m.NoMatrix? then 0 else 1)
                                           else if x == PushStyle then (if style then 1 else 0) else 0)
  {
    var mpush: seq<Cmd> := if m.NoMatrix? then [] else [PushMatrix, ApplyMatrix(m)];
    var spush: seq<Cmd> := if style then [PushStyle] + Styles(s) else [];
    MatrixPushCount(m, x);
    StylePushCount(style, s, x);
    CountAppend(mpush, spush, x);
  }

  lemma MatrixPushCount(m: Matrix, x: Cmd)
    requires x == PushMatrix || x == PopMatrix || x == PushStyle || x == PopStyle
    ensures Count(if m.NoMatrix? then [] else [PushMatrix, ApplyMatrix(m)], x) == (if x == PushMatrix && !m.NoMatrix? then 1 else 0)
  {
    if !m.NoMatrix? {
      assert [PushMatrix, ApplyMatrix(m)] == [PushMatrix] + [ApplyMatrix(m)];
      CountOne(PushMatrix, x); CountOne(ApplyMatrix(m), x);
      CountAppend([PushMatrix], [ApplyMatrix(m)], x);
    }
  }

  lemma StylePushCount(style: bool, s: StyleData, x: Cmd)
    requires x == PushMatrix || x == PopMatrix || x == PushStyle || x == PopStyle
    ensures Count(if style then [PushStyle] + Styles(s) else [], x) == (if x == PushStyle && style then 1 else 0)
  {
    if style {
      CountOne(PushStyle, x);
      StylesCount(s, x);
      CountAppend([PushStyle], Styles(s), x);
    }
  }

  /** post() pops what pre() pushed. */
  lemma PostCounts(m: Matrix, style: bool, x: Cmd)
    requires x == PushMatrix || x == PopMatrix || x == PushStyle || x == PopStyle
    ensures Count(Post(m, style), x) == (if x == PopMatrix then (if m.NoMatrix? then 0 else 1)
                                         else if x == PopStyle then (if style then 1 else 0) else 0)
  {
    var mpop: seq<Cmd> := if m.NoMatrix? then [] else [PopMatrix];
    var spop: seq<Cmd> := if style then [PopStyle] else [];
    CountAppend(mpop, spop, x);
    CountOne(PopMatrix, x); CountOne(PopStyle, x);
  }

  /** pre() and post() bracket both stacks: what pre() pushes, post() pops. */
  lemma PrePostBalanced(m: Matrix, style: bool, s: StyleData)
    ensures Balanced(Pre(m, style, s) + Post(m, style))
  {
    var pre, post := Pre(m, style, s), Post(m, style);
    Enclosing(m, style, s, []);
    assert pre + [] + post == pre + post;
  }

  /** Calls bracketed on both stacks stay bracketed between pre() and post(). */
  lemma Enclosing(m: Matrix, style: bool, s: StyleData, mid: seq<Cmd>)
    requires Balanced(mid)
    ensures Balanced(Pre(m, style, s) + mid + Post(m, style))
  {
    var pre, post := Pre(m, style, s), Post(m, style);
    PreCounts(m, style, s, PushMatrix); PreCounts(m, style, s, PopMatrix);
    PreCounts(m, style, s, PushStyle); PreCounts(m, style, s, PopStyle);
    PostCounts(m, style, PushMatrix); PostCounts(m, style, PopMatrix);
    PostCounts(m, style, PushStyle); PostCounts(m, style, PopStyle);
    BracketedEnclosed(pre, mid, post, PushMatrix, PopMatrix);
    BracketedEnclosed(pre, mid, post, PushStyle, PopStyle);
  }

  /** A node whose children's calls are balanced draws balanced calls when nothing throws. */
  lemma NodeBalanced(d: ShapeData, loader: string -> Option<Image>, children: Replay)
    requires d.family == GROUP ==> Balanced(children.events)
    requires NodeTrace(d, loader, children).error.None?
    ensures Balanced(NodeTrace(d, loader, children).events)
  {
    if d.visible {
      var impl := Impl(d, loader, children).events;
      if d.family != GROUP {
        ImplFlat(d, loader, children);
        FlatBalanced(impl);
      }
      var pre, post := Pre(d.matrix, d.style, d.styles), Post(d.matrix, d.style);
      assert NodeTrace(d, loader, children).events == pre + impl + post;
      Enclosing(d.matrix, d.style, d.styles, impl);
    } else {
      FlatBalanced([]);
      assert NodeTrace(d, loader, children).events == [];
    }
  }
}
