/**
 * PShape, the retained shape: its fields, the authoring calls made
 * between beginShape() and endShape(), the style calls gated on that
 * phase, the setters for after it, and drawing one shape into the
 * renderer's call log. The growable arrays are `array`s reassigned when
 * they grow; a slot of `vertices` holds a vertex record as a value.
 * Diagnostics the shape prints through PGraphics.showWarning() are kept
 * in the ghost log `warnings`.
 */
module Shape {
  import opened Base
  import opened Constants
  import opened Int32Ops
  import opened Color
  import opened Render
  import opened Transforms
  import opened Paths
  import opened Drawing
  import opened ImageSource
  import opened VertexStore
  import opened Authoring

  /** The diagnostics printed instead of acting. */
  datatype Warning =
    | OutsideBeginEnd      // an in-shape call outside beginShape()/endShape()
    | InsideBeginEnd       // a set*() call between beginShape() and endShape()
    | GroupContour         // beginContour()/endContour() on a GROUP
    | ContourAlreadyOpen   // "Already called beginContour()."
    | ContourNotOpen       // "Need to call beginContour() first."
    | EndGroup             // "Cannot end GROUP shape"
    | NotBegun             // "Need to call beginShape() first"
    | PerVertexUnsupported
    | NoSuchVertex(index: int)
    | WrongParamCount      // "Wrong number of parameters"
    | NoVertices

  /** The style fields of a shape. */
  datatype Look = Look(
    stroke: bool, strokeColor: Int32, strokeWeight: real, strokeCap: int, strokeJoin: int,
    fill: bool, fillColor: Int32, tint: bool, tintColor: Int32,
    ambientColor: Int32, setAmbient: bool, specularColor: Int32, emissiveColor: Int32, shininess: real,
    sphereDetailU: int, sphereDetailV: int)

  /** Every field of a shape, with the contents of its arrays, but not the hierarchy. */
  datatype Fields = Fields(
    name: Option<string>, family: int, kind: int, matrix: Matrix, textureMode: int,
    image: Option<Image>, imagePath: Option<string>, visible: bool,
    openShape: bool, openContour: bool, close: bool, look: Look,
    rectMode: int, ellipseMode: int, style: bool, params: Option<seq<real>>,
    store: Store, calculated: Calc, colorSpace: ColorSpace, is3D: bool, perVertexStyles: bool)

  /** The renderer's current settings, which PShape(g, family) copies. */
  datatype Settings = Settings(
    textureMode: int, colorMode: int, colorModeX: real, colorModeY: real, colorModeZ: real, colorModeA: real,
    fill: bool, fillColor: Int32, stroke: bool, strokeColor: Int32, strokeWeight: real,
    strokeCap: int, strokeJoin: int, tint: bool, tintColor: Int32, setAmbient: bool, ambientColor: Int32,
    specularColor: Int32, emissiveColor: Int32, shininess: real, sphereDetailU: int, sphereDetailV: int,
    rectMode: int, ellipseMode: int)

  /** The style of a shape made without a renderer. */
  const DefaultLook := Look(false, 0, 1.0, 0, 0, false, 0, false, 0, 0, false, 0, 0, 0.0, 0, 0)

  /** The warnings of a sweep over indices 0 until n that runs to the end: one for each index at or past the capacity. */
  function MissingFrom(capacity: nat, n: nat): seq<Warning>
    decreases n
  {
    if n <= capacity then [] else MissingFrom(capacity, n - 1) + [NoSuchVertex(n - 1)]
  }

  /** The warnings of n per-vertex style calls on a shape without per-vertex styles. */
  function Unsupported(n: nat): seq<Warning> {
    if n == 0 then [] else Unsupported(n - 1) + [PerVertexUnsupported]
  }

  /** The forms the ambient(), specular() and emissive() overloads take: one Int, one gray, three channels. */
  predicate Opaque(arg: ColorArg) { arg.Packed? || arg.Gray? || arg.Channels? }

  /** PApplet.expand(array): a fresh array twice as long holding the old contents first. */
  method Expand<T>(a: array<T>, filler: T) returns (b: array<T>)
    ensures fresh(b) && b[..] == Grown(a[..], filler)
  {
    b := new T[if a.Length == 0 then 1 else 2 * a.Length](_ => filler);
    forall k | 0 <= k < a.Length {
      b[k] := a[k];
    }
  }

  class PShape {
    var name: Option<string>
    var family: int
    var kind: int
    var matrix: Matrix
    var textureMode: int
    var image: Option<Image>
    var imagePath: Option<string>
    var width: real
    var height: real
    var visible: bool
    var openShape: bool
    var openContour: bool
    var stroke: bool
    var strokeColor: Int32
    var strokeWeight: real
    var strokeCap: int
    var strokeJoin: int
    var fill: bool
    var fillColor: Int32
    var tint: bool
    var tintColor: Int32
    var ambientColor: Int32
    var setAmbient: bool
    var specularColor: Int32
    var emissiveColor: Int32
    var shininess: real
    var sphereDetailU: int
    var sphereDetailV: int
    var rectMode: int
    var ellipseMode: int
    var style: bool
    var params: array?<real>
    var vertexCount: int
    var vertices: array?<Option<seq<real>>>
    var codeCount: int
    var codes: array?<int>
    var close: bool
    var calculated: Calc
    var colorSpace: ColorSpace
    var is3D: bool
    var perVertexStyles: bool
    ghost var warnings: seq<Warning>

    // -------------------------------------------------------------------
    // Views of the state

    function Rows(): Option<Rows>
      reads this`vertices, vertices
    {
      if vertices == null then None else Some(vertices[..])
    }

    function Codes(): Option<seq<int>>
      reads this`codes, codes
    {
      if codes == null then None else Some(codes[..])
    }

    function ParamValues(): Option<seq<real>>
      reads this`params, params
    {
      if params == null then None else Some(params[..])
    }

    /** The arrays and counters authoring works on. */
    function Snapshot(): Store
      reads this`vertices, this`vertexCount, this`codes, this`codeCount, this`width, this`height, vertices, codes
    {
      Store(Rows(), vertexCount, Codes(), codeCount, width, height)
    }

    function Appearance(): Look
      reads this
    {
      Look(stroke, strokeColor, strokeWeight, strokeCap, strokeJoin, fill, fillColor, tint, tintColor,
           ambientColor, setAmbient, specularColor, emissiveColor, shininess, sphereDetailU, sphereDetailV)
    }

    /** Every field, the arrays by their contents; the constructors are stated with it. */
    function State(): Fields
      reads this, vertices, codes, params
    {
      Fields(name, family, kind, matrix, textureMode, image, imagePath, visible, openShape, openContour, close,
             Appearance(), rectMode, ellipseMode, style, ParamValues(), Snapshot(), calculated, colorSpace, is3D, perVertexStyles)
    }

    // -------------------------------------------------------------------
    // Construction

    /** PShape(): an empty GROUP. */
    constructor()
      ensures State() == Blank(GROUP) && warnings == []
    {
      name, family, kind, matrix, textureMode := None, GROUP, 0, NoMatrix, 0;
      image, imagePath, width, height := None, None, 0.0, 0.0;
      visible, openShape, openContour := true, false, false;
      stroke, strokeColor, strokeWeight, strokeCap, strokeJoin := false, 0, 1.0, 0, 0;
      fill, fillColor, tint, tintColor := false, 0, false, 0;
      ambientColor, setAmbient, specularColor, emissiveColor, shininess := 0, false, 0, 0, 0.0;
      sphereDetailU, sphereDetailV, rectMode, ellipseMode, style := 0, 0, 0, 0, true;
      params, vertexCount, vertices, codeCount, codes, close := null, 0, null, 0, null, false;
      calculated, colorSpace, is3D, perVertexStyles := InitialCalc, InitialSpace, false, false;
      warnings := [];
    }

    /** Every field at its initial value, the family given. */
    static function Blank(family: int): (f: Fields)
      ensures f.family == family && f.visible && f.style && !f.openShape && f.matrix == NoMatrix
      ensures f.store == Store(None, 0, None, 0, 0.0, 0.0) && f.look.strokeWeight == 1.0
    {
      Fields(None, family, 0, NoMatrix, 0, None, None, true, false, false, false, DefaultLook,
             0, 0, true, None, Store(None, 0, None, 0, 0.0, 0.0), InitialCalc, InitialSpace, false, false)
    }

    /** PShape(family). */
    constructor OfFamily(family: int)
      ensures State() == Blank(family) && warnings == []
    {
      this.family := family;
      name, kind, matrix, textureMode := None, 0, NoMatrix, 0;
      image, imagePath, width, height := None, None, 0.0, 0.0;
      visible, openShape, openContour := true, false, false;
      stroke, strokeColor, strokeWeight, strokeCap, strokeJoin := false, 0, 1.0, 0, 0;
      fill, fillColor, tint, tintColor := false, 0, false, 0;
      ambientColor, setAmbient, specularColor, emissiveColor, shininess := 0, false, 0, 0, 0.0;
      sphereDetailU, sphereDetailV, rectMode, ellipseMode, style := 0, 0, 0, 0, true;
      params, vertexCount, vertices, codeCount, codes, close := null, 0, null, 0, null, false;
      calculated, colorSpace, is3D, perVertexStyles := InitialCalc, InitialSpace, false, false;
      warnings := [];
    }

    /** The style a shape made from a renderer takes over from it. */
    static function Inherited(g: Settings): Look {
      Look(g.stroke, g.strokeColor, g.strokeWeight, g.strokeCap, g.strokeJoin, g.fill, g.fillColor,
           g.tint, g.tintColor, g.ambientColor, g.setAmbient, g.specularColor, g.emissiveColor, g.shininess,
           g.sphereDetailU, g.sphereDetailV)
    }

    /**
     * PShape(g, family): the texture mode, the colour mode and every style
     * field come from the renderer, through colorMode() for the colour space.
     */
    constructor FromRenderer(g: Settings, family: int)
      ensures State() == Blank(family).(textureMode := g.textureMode, look := Inherited(g),
                                         rectMode := g.rectMode, ellipseMode := g.ellipseMode,
                                         colorSpace := SetColorMode(g.colorMode, g.colorModeX, g.colorModeY,
                                                                    g.colorModeZ, g.colorModeA))
      ensures warnings == []
    {
      this.family := family;
      name, kind, matrix := None, 0, NoMatrix;
      image, imagePath, width, height := None, None, 0.0, 0.0;
      visible, openShape, openContour := true, false, false;
      params, vertexCount, vertices, codeCount, codes, close := null, 0, null, 0, null, false;
      calculated, is3D, perVertexStyles, style := InitialCalc, false, false, true;
      warnings := [];
      textureMode := g.textureMode;
      colorSpace := SetColorMode(g.colorMode, g.colorModeX, g.colorModeY, g.colorModeZ, g.colorModeA);
      fill, fillColor := g.fill, g.fillColor;
      stroke, strokeColor, strokeWeight, strokeCap, strokeJoin := g.stroke, g.strokeColor, g.strokeWeight, g.strokeCap, g.strokeJoin;
      tint, tintColor := g.tint, g.tintColor;
      setAmbient, ambientColor, specularColor, emissiveColor, shininess := g.setAmbient, g.ambientColor, g.specularColor, g.emissiveColor, g.shininess;
      sphereDetailU, sphereDetailV := g.sphereDetailU, g.sphereDetailV;
      rectMode, ellipseMode := g.rectMode, g.ellipseMode;
    }

    /**
     * PShape(g, kind, params...): a PRIMITIVE from the renderer whose
     * parameters are a copy of the ones given (setParams() on no array).
     */
    constructor Primitive(g: Settings, kind: int, source: seq<real>)
      ensures State() == Blank(PRIMITIVE).(kind := kind, textureMode := g.textureMode, look := Inherited(g),
                                            rectMode := g.rectMode, ellipseMode := g.ellipseMode,
                                            colorSpace := SetColorMode(g.colorMode, g.colorModeX, g.colorModeY,
                                                                       g.colorModeZ, g.colorModeA),
                                            params := Some(source))
      ensures warnings == []
    {
      this.family := PRIMITIVE;
      this.kind := kind;
      name, matrix := None, NoMatrix;
      image, imagePath, width, height := None, None, 0.0, 0.0;
      visible, openShape, openContour := true, false, false;
      vertexCount, vertices, codeCount, codes, close := 0, null, 0, null, false;
      calculated, is3D, perVertexStyles, style := InitialCalc, false, false, true;
      warnings := [];
      textureMode := g.textureMode;
      colorSpace := SetColorMode(g.colorMode, g.colorModeX, g.colorModeY, g.colorModeZ, g.colorModeA);
      fill, fillColor := g.fill, g.fillColor;
      stroke, strokeColor, strokeWeight, strokeCap, strokeJoin := g.stroke, g.strokeColor, g.strokeWeight, g.strokeCap, g.strokeJoin;
      tint, tintColor := g.tint, g.tintColor;
      setAmbient, ambientColor, specularColor, emissiveColor, shininess := g.setAmbient, g.ambientColor, g.specularColor, g.emissiveColor, g.shininess;
      sphereDetailU, sphereDetailV := g.sphereDetailU, g.sphereDetailV;
      rectMode, ellipseMode := g.rectMode, g.ellipseMode;
      var copy := new real[|source|](k requires 0 <= k < |source| => source[k]);
      assert copy[..] == source;
      params := copy;
    }

    // -------------------------------------------------------------------
    // Texture, within beginShape()/endShape(). Each in-shape call changes
    // only the fields its modifies clause names, and those only while the
    // shape is open; otherwise it warns and changes nothing.

    method TextureMode(mode: int)
      modifies this`textureMode, this`warnings
      ensures old(openShape) ==> textureMode == mode && warnings == old(warnings)
      ensures !old(openShape) ==> textureMode == old(textureMode) && warnings == old(warnings) + [OutsideBeginEnd]
    {
      if !openShape {
        warnings := warnings + [OutsideBeginEnd];
        return;
      }
      textureMode := mode;
    }

    method Texture(tex: Option<Image>)
      modifies this`image, this`warnings
      ensures old(openShape) ==> image == tex && warnings == old(warnings)
      ensures !old(openShape) ==> image == old(image) && warnings == old(warnings) + [OutsideBeginEnd]
    {
      if !openShape {
        warnings := warnings + [OutsideBeginEnd];
        return;
      }
      image := tex;
    }

    method NoTexture()
      modifies this`image, this`warnings
      ensures old(openShape) ==> image == None && warnings == old(warnings)
      ensures !old(openShape) ==> image == old(image) && warnings == old(warnings) + [OutsideBeginEnd]
    {
      if !openShape {
        warnings := warnings + [OutsideBeginEnd];
        return;
      }
      image := None;
    }

    // -------------------------------------------------------------------
    // The authoring state machine

    /** beginShape(kind), and beginShape() with POLYGON: always opens the shape. */
    method BeginShape(kind: int)
      modifies this`kind, this`openShape
      ensures this.kind == kind && openShape
    {
      this.kind := kind;
      openShape := true;
    }

    /** endShape(mode), and endShape() with OPEN. */
    method EndShape(mode: int)
      modifies this`close, this`openShape, this`warnings
      ensures family == GROUP ==> close == old(close) && openShape == old(openShape) && warnings == old(warnings) + [EndGroup]
      ensures family != GROUP && !old(openShape) ==> close == old(close) && !openShape && warnings == old(warnings) + [NotBegun]
      ensures family != GROUP && old(openShape) ==> (close <==> mode == CLOSE) && !openShape && warnings == old(warnings)
    {
      if family == GROUP {
        warnings := warnings + [EndGroup];
        return;
      }
      if !openShape {
        warnings := warnings + [NotBegun];
        return;
      }
      close := mode == CLOSE;
      openShape := false;
    }

    /** Why beginContour() (begin) or endContour() refuses, if it does. */
    function ContourRefusal(begin: bool): (w: Option<Warning>)
      reads this`openShape, this`family, this`openContour
      ensures w.None? <==> openShape && family != GROUP && openContour != begin
    {
      if !openShape then Some(OutsideBeginEnd)
      else if family == GROUP then Some(GroupContour)
      else if begin && openContour then Some(ContourAlreadyOpen)
      else if !begin && !openContour then Some(ContourNotOpen)
      else None
    }

    /**
     * beginContour(): on an open, non-GROUP shape outside a contour, opens
     * one and appends one BREAK code (beginContourImpl); otherwise a
     * warning and nothing else.
     */
    method BeginContour() returns (r: Outcome)
      modifies this`openContour, this`codes, this`codeCount, this`warnings, codes
      ensures codes == old(codes) || fresh(codes)
      ensures old(ContourRefusal(true)).Some? ==>
                && r == Returned && openContour == old(openContour) && codes == old(codes) && Codes() == old(Codes())
                && codeCount == old(codeCount) && warnings == old(warnings) + [old(ContourRefusal(true)).value]
      ensures old(ContourRefusal(true)).None? ==>
                && openContour && warnings == old(warnings)
                && Codes() == Broken(old(Snapshot())).0.codes && codeCount == Broken(old(Snapshot())).0.codeCount
                && r == Broken(old(Snapshot())).1
    {
      var refusal := ContourRefusal(true);
      if refusal.Some? {
        warnings := warnings + [refusal.value];
        return Returned;
      }
      openContour := true;
      r := AppendCode(BREAK, true);
    }

    /** endContour(): the mirror of beginContour(); it appends nothing. */
    method EndContour()
      modifies this`openContour, this`warnings
      ensures old(ContourRefusal(false)).Some? ==>
                openContour == old(openContour) && warnings == old(warnings) + [old(ContourRefusal(false)).value]
      ensures old(ContourRefusal(false)).None? ==> !openContour && warnings == old(warnings)
    {
      var refusal := ContourRefusal(false);
      if refusal.Some? {
        warnings := warnings + [refusal.value];
        return;
      }
      openContour := false;
    }

    /**
     * The code half of the vertex calls and beginContourImpl(): the room
     * test of `mvertexCodes`, then `mvertexCodes!![mvertexCodeCount++] = code`.
     */
    method AppendCode(code: int, allocate: bool) returns (r: Outcome)
      modifies this`codes, this`codeCount, codes
      ensures codes == old(codes) || fresh(codes)
      ensures var p := PutCode(old(Codes()), old(codeCount), code, allocate);
        Codes() == p.0 && codeCount == p.1 && r == p.2
    {
      if codes == null {
        if !allocate {
          return Raised(NullPointer);
        }
        codes := new int[10](_ => 0);
        assert codes[..] == seq(10, _ => 0);
      } else if codes.Length == codeCount {
        codes := Expand(codes, 0);
      }
      ghost var room := codes[..];
      assert CodeRoom(old(Codes()), old(codeCount), allocate) == Ok(room);
      var j := codeCount;
      codeCount := codeCount + 1;
      if !(0 <= j < codes.Length) {
        return Raised(IndexOutOfBounds);
      }
      codes[j] := code;
      assert codes[..] == room[j := code];
      r := Returned;
    }

    /** The room test of `vertices` for a call adding `seg`. */
    method RowRoomFor(seg: Segment)
      modifies this`vertices
      ensures vertices != null && (vertices == old(vertices) || fresh(vertices))
      ensures vertices[..] == RowRoom(old(Rows()), vertexCount, seg)
    {
      if vertices == null {
        var filler := if seg == Line then Some([0.0, 0.0]) else None;
        vertices := new Option<seq<real>>[10](_ => filler);
        assert vertices[..] == seq(10, _ => filler);
      } else if Full(seg, vertices.Length, vertexCount) {
        vertices := Expand(vertices, None);
      }
    }

    /** `vertices!![mvertexCount++] = floatArrayOf(p.0, p.1)`. */
    method PutRow(p: (real, real)) returns (r: Outcome)
      requires vertices != null
      modifies this`vertexCount, vertices
      ensures var q := Put(old(vertices[..]), old(vertexCount), RowOf(p));
        vertices[..] == q.0 && vertexCount == q.1 && r == q.2
    {
      var j := vertexCount;
      vertexCount := vertexCount + 1;
      if !(0 <= j < vertices.Length) {
        return Raised(IndexOutOfBounds);
      }
      vertices[j] := RowOf(p);
      r := Returned;
    }

    /**
     * vertex(x, y): one row and one VERTEX code, allocating both arrays
     * when missing; not gated on the phase.
     */
    method Vertex(x: real, y: real) returns (r: Outcome)
      modifies this`vertices, this`vertexCount, this`codes, this`codeCount, this`width, this`height, vertices, codes
      ensures vertices != null && (vertices == old(vertices) || fresh(vertices))
      ensures codes == old(codes) || fresh(codes)
      ensures Snapshot() == Added(old(Snapshot()), Line, [(x, y)]).0 && r == Added(old(Snapshot()), Line, [(x, y)]).1
    {
      ghost var s := Snapshot();
      RowRoomFor(Line);
      ghost var room := vertices[..];
      r := PutRow((x, y));
      assert PutRows(room, s.vertexCount, [(x, y)]) == Put(room, s.vertexCount, RowOf((x, y)));
      if r.Raised? {
        return;
      }
      r := AppendCode(VERTEX, true);
      if r.Raised? {
        return;
      }
      if x > width {
        width := x;
      }
      if y > height {
        height := y;
      }
    }

    /** vertex(x, y, z): the same as vertex(x, y); z is dropped. */
    method Vertex3(x: real, y: real, z: real) returns (r: Outcome)
      modifies this`vertices, this`vertexCount, this`codes, this`codeCount, this`width, this`height, vertices, codes
      ensures vertices != null && (vertices == old(vertices) || fresh(vertices))
      ensures codes == old(codes) || fresh(codes)
      ensures Snapshot() == Added(old(Snapshot()), Line, [(x, y)]).0 && r == Added(old(Snapshot()), Line, [(x, y)]).1
    {
      r := Vertex(x, y);
    }

    /**
     * quadraticVertex(cx, cy, x3, y3): two rows (allocating null slots)
     * and one QUADRATIC_VERTEX code; a missing code array throws.
     */
    method QuadraticVertex(cx: real, cy: real, x3: real, y3: real) returns (r: Outcome)
      modifies this`vertices, this`vertexCount, this`codes, this`codeCount, this`width, this`height, vertices, codes
      ensures vertices != null && (vertices == old(vertices) || fresh(vertices))
      ensures codes == old(codes) || fresh(codes)
      ensures var a := Added(old(Snapshot()), Quadratic, [(cx, cy), (x3, y3)]);
        Snapshot() == a.0 && r == a.1
    {
      ghost var s := Snapshot();
      RowRoomFor(Quadratic);
      ghost var room := vertices[..];
      r := PutRow((cx, cy));
      PutTwoRows(room, s.vertexCount, (cx, cy), (x3, y3));
      if r.Raised? {
        return;
      }
      r := PutRow((x3, y3));
      if r.Raised? {
        return;
      }
      r := AppendCode(QUADRATIC_VERTEX, false);
      if r.Raised? {
        return;
      }
      if x3 > width {
        width := x3;
      }
      if y3 > height {
        height := y3;
      }
    }

    /**
     * bezierVertex(x2, y2, x3, y3, x4, y4): three rows (allocating null
     * slots) and one BEZIER_VERTEX code; a missing code array throws.
     */
    method BezierVertex(x2: real, y2: real, x3: real, y3: real, x4: real, y4: real) returns (r: Outcome)
      modifies this`vertices, this`vertexCount, this`codes, this`codeCount, this`width, this`height, vertices, codes
      ensures vertices != null && (vertices == old(vertices) || fresh(vertices))
      ensures codes == old(codes) || fresh(codes)
      ensures var a := Added(old(Snapshot()), Bezier, [(x2, y2), (x3, y3), (x4, y4)]);
        Snapshot() == a.0 && r == a.1
    {
      ghost var s := Snapshot();
      RowRoomFor(Bezier);
      ghost var room := vertices[..];
      r := PutRow((x2, y2));
      ghost var p1 := Put(room, s.vertexCount, RowOf((x2, y2)));
      PutThreeRows(room, s.vertexCount, (x2, y2), (x3, y3), (x4, y4));
      PutTwoRows(p1.0, p1.1, (x3, y3), (x4, y4));
      if r.Raised? {
        return;
      }
      r := PutRow((x3, y3));
      if r.Raised? {
        return;
      }
      r := PutRow((x4, y4));
      if r.Raised? {
        return;
      }
      r := AppendCode(BEZIER_VERTEX, false);
      if r.Raised? {
        return;
      }
      if x4 > width {
        width := x4;
      }
      if y4 > height {
        height := y4;
      }
    }

    // -------------------------------------------------------------------
    // Stroke, fill, tint and lights, within beginShape()/endShape()

    method StrokeWeight(weight: real)
      modifies this`strokeWeight, this`warnings
      ensures old(openShape) ==> strokeWeight == weight && warnings == old(warnings)
      ensures !old(openShape) ==> strokeWeight == old(strokeWeight) && warnings == old(warnings) + [OutsideBeginEnd]
    {
      if !openShape {
        warnings := warnings + [OutsideBeginEnd];
        return;
      }
      strokeWeight := weight;
    }

    method StrokeJoin(join: int)
      modifies this`strokeJoin, this`warnings
      ensures old(openShape) ==> strokeJoin == join && warnings == old(warnings)
      ensures !old(openShape) ==> strokeJoin == old(strokeJoin) && warnings == old(warnings) + [OutsideBeginEnd]
    {
      if !openShape {
        warnings := warnings + [OutsideBeginEnd];
        return;
      }
      strokeJoin := join;
    }

    method StrokeCap(cap: int)
      modifies this`strokeCap, this`warnings
      ensures old(openShape) ==> strokeCap == cap && warnings == old(warnings)
      ensures !old(openShape) ==> strokeCap == old(strokeCap) && warnings == old(warnings) + [OutsideBeginEnd]
    {
      if !openShape {
        warnings := warnings + [OutsideBeginEnd];
        return;
      }
      strokeCap := cap;
    }

    /** noFill(): no fill, colour 0, and the ambient colour follows unless set by ambient(). */
    method NoFill()
      modifies this`fill, this`fillColor, this`ambientColor, this`warnings
      ensures old(openShape) ==> && !fill && fillColor == 0 && warnings == old(warnings)
                                 && ambientColor == (if setAmbient then old(ambientColor) else 0)
      ensures !old(openShape) ==> && fill == old(fill) && fillColor == old(fillColor)
                                  && ambientColor == old(ambientColor) && warnings == old(warnings) + [OutsideBeginEnd]
    {
      if !openShape {
        warnings := warnings + [OutsideBeginEnd];
        return;
      }
      fill := false;
      fillColor := 0;
      if !setAmbient {
        ambientColor := fillColor;
      }
    }

    /**
     * fill() in each argument form: colorCalc, then the calculated colour
     * as the fill and, unless ambient() set one, as the ambient colour.
     * fill(gray, alpha) goes through ambient(fillColor) first, which
     * recalculates from the packed fill colour and whose flag it resets.
     */
    method Fill(arg: ColorArg)
      requires openShape ==> Defined(colorSpace, arg)
      modifies this`fill, this`calculated, this`fillColor, this`ambientColor, this`setAmbient, this`warnings
      ensures old(openShape) ==>
                var c := Calculate(old(colorSpace), old(calculated), arg);
                && fill && fillColor == c.color && setAmbient == old(setAmbient) && warnings == old(warnings)
                && ambientColor == (if old(setAmbient) then old(ambientColor) else c.color)
                && calculated == (if arg.GrayAlpha? && !old(setAmbient) then Calculate(colorSpace, c, Packed(c.color)) else c)
      ensures old(openShape) && arg.Packed? && !GrayInt(colorSpace, arg.rgb) ==> fillColor == arg.rgb
      ensures !old(openShape) ==>
                && fill == old(fill) && fillColor == old(fillColor) && calculated == old(calculated)
                && ambientColor == old(ambientColor) && setAmbient == old(setAmbient)
                && warnings == old(warnings) + [OutsideBeginEnd]
    {
      if !openShape {
        warnings := warnings + [OutsideBeginEnd];
        return;
      }
      fill := true;
      calculated := Calculate(colorSpace, calculated, arg);
      fillColor := calculated.color;
      if arg.GrayAlpha? && !setAmbient {
        Ambient(Packed(fillColor));
        setAmbient := false;
      }
      if !setAmbient {
        ambientColor := fillColor;
      }
      if arg.Packed? && !GrayInt(colorSpace, arg.rgb) {
        PackedPassesThrough(colorSpace, old(calculated), arg.rgb);
      }
    }

    method NoStroke()
      modifies this`stroke, this`warnings
      ensures old(openShape) ==> !stroke && warnings == old(warnings)
      ensures !old(openShape) ==> stroke == old(stroke) && warnings == old(warnings) + [OutsideBeginEnd]
    {
      if !openShape {
        warnings := warnings + [OutsideBeginEnd];
        return;
      }
      stroke := false;
    }

    /** stroke() in each argument form: colorCalc, then the calculated colour as the stroke. */
    method Stroke(arg: ColorArg)
      requires openShape ==> Defined(colorSpace, arg)
      modifies this`stroke, this`calculated, this`strokeColor, this`warnings
      ensures old(openShape) ==>
                var c := Calculate(old(colorSpace), old(calculated), arg);
                stroke && calculated == c && strokeColor == c.color && warnings == old(warnings)
      ensures old(openShape) && arg.Packed? && !GrayInt(colorSpace, arg.rgb) ==> strokeColor == arg.rgb
      ensures !old(openShape) ==>
                && stroke == old(stroke) && strokeColor == old(strokeColor) && calculated == old(calculated)
                && warnings == old(warnings) + [OutsideBeginEnd]
    {
      if !openShape {
        warnings := warnings + [OutsideBeginEnd];
        return;
      }
      stroke := true;
      calculated := Calculate(colorSpace, calculated, arg);
      strokeColor := calculated.color;
      if arg.Packed? && !GrayInt(colorSpace, arg.rgb) {
        PackedPassesThrough(colorSpace, old(calculated), arg.rgb);
      }
    }

    method NoTint()
      modifies this`tint, this`warnings
      ensures old(openShape) ==> !tint && warnings == old(warnings)
      ensures !old(openShape) ==> tint == old(tint) && warnings == old(warnings) + [OutsideBeginEnd]
    {
      if !openShape {
        warnings := warnings + [OutsideBeginEnd];
        return;
      }
      tint := false;
    }

    /** tint() in each argument form: colorCalc, then the calculated colour as the tint. */
    method Tint(arg: ColorArg)
      requires openShape ==> Defined(colorSpace, arg)
      modifies this`tint, this`calculated, this`tintColor, this`warnings
      ensures old(openShape) ==>
                var c := Calculate(old(colorSpace), old(calculated), arg);
                tint && calculated == c && tintColor == c.color && warnings == old(warnings)
      ensures old(openShape) && arg.Packed? && !GrayInt(colorSpace, arg.rgb) ==> tintColor == arg.rgb
      ensures !old(openShape) ==>
                && tint == old(tint) && tintColor == old(tintColor) && calculated == old(calculated)
                && warnings == old(warnings) + [OutsideBeginEnd]
    {
      if !openShape {
        warnings := warnings + [OutsideBeginEnd];
        return;
      }
      tint := true;
      calculated := Calculate(colorSpace, calculated, arg);
      tintColor := calculated.color;
      if arg.Packed? && !GrayInt(colorSpace, arg.rgb) {
        PackedPassesThrough(colorSpace, old(calculated), arg.rgb);
      }
    }

    /** ambient(rgb), ambient(gray), ambient(x, y, z): marks the ambient colour as set. */
    method Ambient(arg: ColorArg)
      requires Opaque(arg) && (openShape ==> Defined(colorSpace, arg))
      modifies this`setAmbient, this`calculated, this`ambientColor, this`warnings
      ensures old(openShape) ==>
                var c := Calculate(old(colorSpace), old(calculated), arg);
                setAmbient && calculated == c && ambientColor == c.color && warnings == old(warnings)
      ensures !old(openShape) ==>
                && setAmbient == old(setAmbient) && ambientColor == old(ambientColor) && calculated == old(calculated)
                && warnings == old(warnings) + [OutsideBeginEnd]
    {
      if !openShape {
        warnings := warnings + [OutsideBeginEnd];
        return;
      }
      setAmbient := true;
      calculated := Calculate(colorSpace, calculated, arg);
      ambientColor := calculated.color;
    }

    /** specular() in its three forms. */
    method Specular(arg: ColorArg)
      requires Opaque(arg) && (openShape ==> Defined(colorSpace, arg))
      modifies this`calculated, this`specularColor, this`warnings
      ensures old(openShape) ==>
                var c := Calculate(old(colorSpace), old(calculated), arg);
                calculated == c && specularColor == c.color && warnings == old(warnings)
      ensures !old(openShape) ==>
                && specularColor == old(specularColor) && calculated == old(calculated)
                && warnings == old(warnings) + [OutsideBeginEnd]
    {
      if !openShape {
        warnings := warnings + [OutsideBeginEnd];
        return;
      }
      calculated := Calculate(colorSpace, calculated, arg);
      specularColor := calculated.color;
    }

    /** emissive() in its three forms. */
    method Emissive(arg: ColorArg)
      requires Opaque(arg) && (openShape ==> Defined(colorSpace, arg))
      modifies this`calculated, this`emissiveColor, this`warnings
      ensures old(openShape) ==>
                var c := Calculate(old(colorSpace), old(calculated), arg);
                calculated == c && emissiveColor == c.color && warnings == old(warnings)
      ensures !old(openShape) ==>
                && emissiveColor == old(emissiveColor) && calculated == old(calculated)
                && warnings == old(warnings) + [OutsideBeginEnd]
    {
      if !openShape {
        warnings := warnings + [OutsideBeginEnd];
        return;
      }
      calculated := Calculate(colorSpace, calculated, arg);
      emissiveColor := calculated.color;
    }

    method Shininess(shine: real)
      modifies this`shininess, this`warnings
      ensures old(openShape) ==> shininess == shine && warnings == old(warnings)
      ensures !old(openShape) ==> shininess == old(shininess) && warnings == old(warnings) + [OutsideBeginEnd]
    {
      if !openShape {
        warnings := warnings + [OutsideBeginEnd];
        return;
      }
      shininess := shine;
    }

    // -------------------------------------------------------------------
    // Colour mode and transforms, at any time

    /** colorMode(mode, maxX, maxY, maxZ, maxA). */
    method ColorMode(mode: int, maxX: real, maxY: real, maxZ: real, maxA: real)
      modifies this`colorSpace
      ensures colorSpace == SetColorMode(mode, maxX, maxY, maxZ, maxA)
      ensures !colorSpace.scale <==> maxX == 1.0 && maxY == 1.0 && maxZ == 1.0 && maxA == 1.0
    {
      colorSpace := SetColorMode(mode, maxX, maxY, maxZ, maxA);
    }

    /** colorMode(mode, max). */
    method ColorModeMax(mode: int, max: real)
      modifies this`colorSpace
      ensures colorSpace == SetColorMode(mode, max, max, max, max)
    {
      ColorMode(mode, max, max, max, max);
    }

    /**
     * translate(), rotate(), rotateX/Y/Z(), scale(), resetMatrix() and
     * applyMatrix(): checkMatrix with the call's dimensions, then the
     * operation composed onto the matrix.
     */
    method Transform(t: Transform)
      modifies this`matrix
      ensures matrix == Transformed(old(matrix), t) && matrix != NoMatrix
      ensures old(matrix).Matrix3D? ==> matrix.Matrix3D?
    {
      matrix := Transformed(matrix, t);
      KindOrder(old(matrix), t);
    }

    // -------------------------------------------------------------------
    // Reading vertices back: the getters, which do not change the shape

    /** `NO_SUCH_VERTEX_ERROR`: no array, or an index at or past its capacity (not the vertex count). */
    predicate NoSuchVertex(i: int)
      reads this`vertices
    {
      vertices == null || i >= vertices.Length
    }

    /** The warning a per-vertex call prints for index i, if any. */
    function Bounds(i: int): seq<Warning>
      reads this`vertices
    {
      if NoSuchVertex(i) then [Warning.NoSuchVertex(i)] else []
    }

    /** getVertexX(i), getNormalX(i), getTextureU(i) and the like: field f of vertex i. */
    function GetField(i: int, f: nat): (r: Result<real>)
      reads this`vertices, vertices
      ensures vertices == null ==> r == Throws(NullPointer)
      ensures r.Ok? <==> vertices != null && 0 <= i < vertices.Length && vertices[i].Some? && f < |vertices[i].value|
    {
      if vertices == null then Throws(NullPointer) else Field(vertices[..], i, f)
    }

    /**
     * getFill(i): the shape's fill colour when there is no such vertex; on
     * an untextured shape the vertex's packed fill, on a textured one 0.
     */
    function GetFill(i: int): (r: Result<Int32>)
      reads this`vertices, vertices, this`fillColor, this`image
      ensures NoSuchVertex(i) ==> r == Ok(fillColor)
      ensures !NoSuchVertex(i) && image.Some? ==> r == Ok(0)
      ensures !NoSuchVertex(i) && image.None? ==> (r.Ok? <==> Has(vertices[..], i, A) && Has(vertices[..], i, R) && Has(vertices[..], i, G) && Has(vertices[..], i, B))
      ensures r.Throws? ==> !NoSuchVertex(i) && r.error == ReadError(vertices[..], i)
    {
      if NoSuchVertex(i) then Ok(fillColor)
      else if image.None? then ArgbAt(vertices[..], i, A, R, G, B)
      else Ok(0)
    }

    /** getTint(i): the tint colour when there is no such vertex; the same fields as getFill(i), read only on a textured shape. */
    function GetTint(i: int): (r: Result<Int32>)
      reads this`vertices, vertices, this`tintColor, this`image
      ensures NoSuchVertex(i) ==> r == Ok(tintColor)
      ensures !NoSuchVertex(i) && image.None? ==> r == Ok(0)
      ensures !NoSuchVertex(i) && image.Some? ==> (r.Ok? <==> Has(vertices[..], i, A) && Has(vertices[..], i, R) && Has(vertices[..], i, G) && Has(vertices[..], i, B))
      ensures r.Throws? ==> !NoSuchVertex(i) && r.error == ReadError(vertices[..], i)
    {
      if NoSuchVertex(i) then Ok(tintColor)
      else if image.Some? then ArgbAt(vertices[..], i, A, R, G, B)
      else Ok(0)
    }

    /** getStroke(i): the stroke colour when there is no such vertex, else the vertex's packed stroke channels. */
    function GetStroke(i: int): (r: Result<Int32>)
      reads this`vertices, vertices, this`strokeColor
      ensures NoSuchVertex(i) ==> r == Ok(strokeColor)
      ensures !NoSuchVertex(i) ==> (r.Ok? <==> Has(vertices[..], i, SA) && Has(vertices[..], i, SR) && Has(vertices[..], i, SG) && Has(vertices[..], i, SB))
      ensures r.Throws? ==> !NoSuchVertex(i) && r.error == ReadError(vertices[..], i)
    {
      if NoSuchVertex(i) then Ok(strokeColor) else ArgbAt(vertices[..], i, SA, SR, SG, SB)
    }

    /** getStrokeWeight(i): the stroke weight when there is no such vertex, else the vertex's SW field. */
    function GetStrokeWeight(i: int): (r: Result<real>)
      reads this`vertices, vertices, this`strokeWeight
      ensures NoSuchVertex(i) ==> r == Ok(strokeWeight)
      ensures !NoSuchVertex(i) ==> (r.Ok? <==> Has(vertices[..], i, SW))
      ensures !NoSuchVertex(i) && r.Ok? ==> r.value == vertices[i].value[SW]
      ensures r.Throws? ==> !NoSuchVertex(i) && r.error == ReadError(vertices[..], i)
    {
      if NoSuchVertex(i) then Ok(strokeWeight) else Field(vertices[..], i, SW)
    }

    /** getAmbient(i): the ambient colour when there is no such vertex, else the vertex's channels under an opaque alpha. */
    function GetAmbient(i: int): (r: Result<Int32>)
      reads this`vertices, vertices, this`ambientColor
      ensures NoSuchVertex(i) ==> r == Ok(ambientColor)
      ensures !NoSuchVertex(i) ==> (r.Ok? <==> Has(vertices[..], i, AR) && Has(vertices[..], i, AG) && Has(vertices[..], i, AB))
      ensures r.Throws? ==> !NoSuchVertex(i) && r.error == ReadError(vertices[..], i)
    {
      if NoSuchVertex(i) then Ok(ambientColor) else OpaqueAt(vertices[..], i, AR, AG, AB)
    }

    /** getSpecular(i): as getAmbient(i), over the specular fields. */
    function GetSpecular(i: int): (r: Result<Int32>)
      reads this`vertices, vertices, this`specularColor
      ensures NoSuchVertex(i) ==> r == Ok(specularColor)
      ensures !NoSuchVertex(i) ==> (r.Ok? <==> Has(vertices[..], i, SPR) && Has(vertices[..], i, SPG) && Has(vertices[..], i, SPB))
      ensures r.Throws? ==> !NoSuchVertex(i) && r.error == ReadError(vertices[..], i)
    {
      if NoSuchVertex(i) then Ok(specularColor) else OpaqueAt(vertices[..], i, SPR, SPG, SPB)
    }

    /** getEmissive(i): as getAmbient(i), over the emissive fields. */
    function GetEmissive(i: int): (r: Result<Int32>)
      reads this`vertices, vertices, this`emissiveColor
      ensures NoSuchVertex(i) ==> r == Ok(emissiveColor)
      ensures !NoSuchVertex(i) ==> (r.Ok? <==> Has(vertices[..], i, ER) && Has(vertices[..], i, EG) && Has(vertices[..], i, EB))
      ensures r.Throws? ==> !NoSuchVertex(i) && r.error == ReadError(vertices[..], i)
    {
      if NoSuchVertex(i) then Ok(emissiveColor) else OpaqueAt(vertices[..], i, ER, EG, EB)
    }

    /** getShininess(i): the shininess when there is no such vertex, else the vertex's SHINE field. */
    function GetShininess(i: int): (r: Result<real>)
      reads this`vertices, vertices, this`shininess
      ensures NoSuchVertex(i) ==> r == Ok(shininess)
      ensures !NoSuchVertex(i) ==> (r.Ok? <==> Has(vertices[..], i, SHINE))
      ensures !NoSuchVertex(i) && r.Ok? ==> r.value == vertices[i].value[SHINE]
      ensures r.Throws? ==> !NoSuchVertex(i) && r.error == ReadError(vertices[..], i)
    {
      if NoSuchVertex(i) then Ok(shininess) else Field(vertices[..], i, SHINE)
    }

    // -------------------------------------------------------------------
    // The stores behind the setters

    /** The stores of one setter on vertex i, `vertices!![i]!![f] = v` for each in program order. */
    method StoreAll(i: int, writes: Writes) returns (r: Outcome)
      requires vertices != null
      modifies vertices
      ensures vertices[..] == WriteAll(old(vertices[..]), i, writes).0 && r == WriteAll(old(vertices[..]), i, writes).1
    {
      var k := 0;
      while k < |writes|
        invariant 0 <= k <= |writes|
        invariant WriteAll(old(vertices[..]), i, writes) == WriteAll(vertices[..], i, writes[k..])
      {
        assert writes[k..][1..] == writes[k + 1..];
        if !(0 <= i < vertices.Length) {
          return Raised(IndexOutOfBounds);
        }
        match vertices[i] {
          case None =>
            return Raised(NullPointer);
          case Some(row) =>
            if writes[k].0 >= |row| {
              return Raised(IndexOutOfBounds);
            }
            vertices[i] := Some(row[writes[k].0 := writes[k].1]);
        }
        k := k + 1;
      }
      assert writes[k..] == [];
      r := Returned;
    }

    /**
     * A per-vertex setter after its phase test: the per-vertex style test
     * when `styled`, then the bounds test, then the stores.
     */
    method PerVertex(i: int, writes: Writes, styled: bool) returns (r: Outcome)
      modifies vertices, this`warnings
      ensures styled && !perVertexStyles ==>
                Rows() == old(Rows()) && r == Returned && warnings == old(warnings) + [PerVertexUnsupported]
      ensures !styled || perVertexStyles ==>
                var t := Touched(old(Rows()), i, writes);
                Rows() == t.0 && r == t.1 && warnings == old(warnings) + Bounds(i)
    {
      if styled && !perVertexStyles {
        warnings := warnings + [PerVertexUnsupported];
        return Returned;
      }
      if NoSuchVertex(i) {
        warnings := warnings + Bounds(i);
        return Returned;
      }
      r := StoreAll(i, writes);
    }

    /**
     * The loop of a sweeping setter, `for (i in 0 until n) setX(i, value)`,
     * each call past its phase test, which the sweep has already passed.
     */
    method SweepVertices(n: nat, writes: Writes, styled: bool) returns (r: Outcome)
      requires vertices != null
      modifies vertices, this`warnings
      ensures styled && !perVertexStyles ==> Rows() == old(Rows()) && r == Returned && warnings == old(warnings) + Unsupported(n)
      ensures !styled || perVertexStyles ==>
                var s := Swept(old(Rows()), n, writes);
                Rows() == s.0 && r == s.1
                && warnings == old(warnings) + (if r.Returned? then MissingFrom(vertices.Length, n) else [])
    {
      ghost var rows := vertices[..];
      var i := 0;
      while i < n
        invariant 0 <= i <= n && |rows| == vertices.Length
        invariant styled && !perVertexStyles ==> vertices[..] == rows && warnings == old(warnings) + Unsupported(i)
        invariant !styled || perVertexStyles ==> vertices[..] == Sweep(rows, i, writes).0 && Sweep(rows, i, writes).1 == Returned
        invariant !styled || perVertexStyles ==> warnings == old(warnings) + MissingFrom(vertices.Length, i)
      {
        r := PerVertex(i, writes, styled);
        if r.Raised? {
          SweepHalts(rows, i + 1, n, writes);
          return;
        }
        i := i + 1;
      }
      r := Returned;
    }

    // -------------------------------------------------------------------
    // Setters for after endShape(). Each is refused while the shape is open.

    method SetTextureMode(mode: int)
      modifies this`textureMode, this`warnings
      ensures old(openShape) ==> textureMode == old(textureMode) && warnings == old(warnings) + [InsideBeginEnd]
      ensures !old(openShape) ==> textureMode == mode && warnings == old(warnings)
    {
      if openShape {
        warnings := warnings + [InsideBeginEnd];
        return;
      }
      textureMode := mode;
    }

    method SetTexture(tex: Option<Image>)
      modifies this`image, this`warnings
      ensures old(openShape) ==> image == old(image) && warnings == old(warnings) + [InsideBeginEnd]
      ensures !old(openShape) ==> image == tex && warnings == old(warnings)
    {
      if openShape {
        warnings := warnings + [InsideBeginEnd];
        return;
      }
      image := tex;
    }

    /** setFill(Boolean). */
    method SetFillFlag(on: bool)
      modifies this`fill, this`warnings
      ensures old(openShape) ==> fill == old(fill) && warnings == old(warnings) + [InsideBeginEnd]
      ensures !old(openShape) ==> fill == on && warnings == old(warnings)
    {
      if openShape {
        warnings := warnings + [InsideBeginEnd];
        return;
      }
      fill := on;
    }

    /** setTint(Boolean). */
    method SetTintFlag(on: bool)
      modifies this`tint, this`warnings
      ensures old(openShape) ==> tint == old(tint) && warnings == old(warnings) + [InsideBeginEnd]
      ensures !old(openShape) ==> tint == on && warnings == old(warnings)
    {
      if openShape {
        warnings := warnings + [InsideBeginEnd];
        return;
      }
      tint := on;
    }

    /** setStroke(Boolean). */
    method SetStrokeFlag(on: bool)
      modifies this`stroke, this`warnings
      ensures old(openShape) ==> stroke == old(stroke) && warnings == old(warnings) + [InsideBeginEnd]
      ensures !old(openShape) ==> stroke == on && warnings == old(warnings)
    {
      if openShape {
        warnings := warnings + [InsideBeginEnd];
        return;
      }
      stroke := on;
    }

    method SetStrokeJoin(join: int)
      modifies this`strokeJoin, this`warnings
      ensures old(openShape) ==> strokeJoin == old(strokeJoin) && warnings == old(warnings) + [InsideBeginEnd]
      ensures !old(openShape) ==> strokeJoin == join && warnings == old(warnings)
    {
      if openShape {
        warnings := warnings + [InsideBeginEnd];
        return;
      }
      strokeJoin := join;
    }

    method SetStrokeCap(cap: int)
      modifies this`strokeCap, this`warnings
      ensures old(openShape) ==> strokeCap == old(strokeCap) && warnings == old(warnings) + [InsideBeginEnd]
      ensures !old(openShape) ==> strokeCap == cap && warnings == old(warnings)
    {
      if openShape {
        warnings := warnings + [InsideBeginEnd];
        return;
      }
      strokeCap := cap;
    }

    /** setVertex(index, x, y): through `vertices!!`, which throws when there is no array. */
    method SetVertex(i: int, x: real, y: real) returns (r: Outcome)
      modifies vertices, this`warnings
      ensures old(openShape) ==> Rows() == old(Rows()) && r == Returned && warnings == old(warnings) + [InsideBeginEnd]
      ensures !old(openShape) ==>
                var a := Assigned(old(Rows()), i, [(X, x), (Y, y)]);
                Rows() == a.0 && r == a.1 && warnings == old(warnings)
      ensures !old(openShape) && old(Rows()).Some? && Holds(old(Rows()).value, i, [(X, x), (Y, y)]) ==>
                r == Returned && GetField(i, X) == Ok(x) && GetField(i, Y) == Ok(y)
    {
      if openShape {
        warnings := warnings + [InsideBeginEnd];
        return Returned;
      }
      var writes := [(X, x), (Y, y)];
      r := Assign(i, writes);
      assert writes[0].0 == X && writes[1].0 == Y;
    }

    /** setVertex(index, x, y, z). */
    method SetVertex3(i: int, x: real, y: real, z: real) returns (r: Outcome)
      modifies vertices, this`warnings
      ensures old(openShape) ==> Rows() == old(Rows()) && r == Returned && warnings == old(warnings) + [InsideBeginEnd]
      ensures !old(openShape) ==>
                var a := Assigned(old(Rows()), i, [(X, x), (Y, y), (Z, z)]);
                Rows() == a.0 && r == a.1 && warnings == old(warnings)
      ensures !old(openShape) && old(Rows()).Some? && Holds(old(Rows()).value, i, [(X, x), (Y, y), (Z, z)]) ==>
                r == Returned && GetField(i, X) == Ok(x) && GetField(i, Y) == Ok(y) && GetField(i, Z) == Ok(z)
    {
      if openShape {
        warnings := warnings + [InsideBeginEnd];
        return Returned;
      }
      var writes := [(X, x), (Y, y), (Z, z)];
      r := Assign(i, writes);
      assert writes[0].0 == X && writes[1].0 == Y && writes[2].0 == Z;
    }

    /** setVertex(index, vec): z only on a row with room for it; a 2D row takes only z == 0. */
    method SetVertexVector(i: int, x: real, y: real, z: real) returns (r: Outcome)
      modifies vertices, this`warnings
      ensures old(openShape) ==> Rows() == old(Rows()) && r == Returned && warnings == old(warnings) + [InsideBeginEnd]
      ensures !old(openShape) ==>
                var a := VectorSet(old(Rows()), i, x, y, z);
                Rows() == a.0 && r == a.1 && warnings == old(warnings)
    {
      if openShape {
        warnings := warnings + [InsideBeginEnd];
        return Returned;
      }
      r := Assign(i, [(X, x), (Y, y)]);
      if r.Raised? {
        return;
      }
      if 0 <= i < vertices.Length && vertices[i].Some? && |vertices[i].value| > 2 {
        r := Assign(i, [(Z, z)]);
      } else if z != 0.0 {
        r := Raised(IllegalArgument(NoZ));
      }
    }

    /** setNormal(index, nx, ny, nz). */
    method SetNormal(i: int, nx: real, ny: real, nz: real) returns (r: Outcome)
      modifies vertices, this`warnings
      ensures old(openShape) ==> Rows() == old(Rows()) && r == Returned && warnings == old(warnings) + [InsideBeginEnd]
      ensures !old(openShape) ==>
                var a := Assigned(old(Rows()), i, [(NX, nx), (NY, ny), (NZ, nz)]);
                Rows() == a.0 && r == a.1 && warnings == old(warnings)
      ensures !old(openShape) && old(Rows()).Some? && Holds(old(Rows()).value, i, [(NX, nx), (NY, ny), (NZ, nz)]) ==>
                r == Returned && GetField(i, NX) == Ok(nx) && GetField(i, NY) == Ok(ny) && GetField(i, NZ) == Ok(nz)
    {
      if openShape {
        warnings := warnings + [InsideBeginEnd];
        return Returned;
      }
      var writes := [(NX, nx), (NY, ny), (NZ, nz)];
      r := Assign(i, writes);
      assert writes[0].0 == NX && writes[1].0 == NY && writes[2].0 == NZ;
    }

    /** The stores of setVertex() and setNormal(), which dereference `vertices!!`. */
    method Assign(i: int, writes: Writes) returns (r: Outcome)
      modifies vertices
      ensures var a := Assigned(old(Rows()), i, writes); Rows() == a.0 && r == a.1
      ensures old(Rows()).Some? && Holds(old(Rows()).value, i, writes) && Distinct(writes) ==>
                r == Returned && forall k :: 0 <= k < |writes| ==> GetField(i, writes[k].0) == Ok(writes[k].1)
    {
      if vertices == null {
        return Raised(NullPointer);
      }
      r := StoreAll(i, writes);
      if old(Rows()).Some? && Holds(old(Rows()).value, i, writes) && Distinct(writes) {
        AssignedFields(old(Rows()), i, writes);
      }
    }

    /** setTextureUV(index, u, v): the bounds test warns; the stores go to U and V. */
    method SetTextureUV(i: int, u: real, v: real) returns (r: Outcome)
      modifies vertices, this`warnings
      ensures old(openShape) ==> Rows() == old(Rows()) && r == Returned && warnings == old(warnings) + [InsideBeginEnd]
      ensures !old(openShape) ==>
                var t := Touched(old(Rows()), i, [(U, u), (V, v)]);
                Rows() == t.0 && r == t.1 && warnings == old(warnings) + Bounds(i)
    {
      if openShape {
        warnings := warnings + [InsideBeginEnd];
        return Returned;
      }
      r := PerVertex(i, [(U, u), (V, v)], false);
    }

    /** The stores of setFill(i, c): the colour's bytes into A, R, G, B, only on an untextured shape. */
    function FillWrites(c: Int32): Writes
      reads this`image
    {
      if image.None? then ArgbWrites(c, A, R, G, B) else []
    }

    /** The stores of setTint(i, c): the same fields, only on a textured shape. */
    function TintWrites(c: Int32): Writes
      reads this`image
    {
      if image.Some? then ArgbWrites(c, A, R, G, B) else []
    }

    /** setFill(index, c). */
    method SetFillAt(i: int, c: Int32) returns (r: Outcome)
      modifies vertices, this`warnings
      ensures old(openShape) ==> Rows() == old(Rows()) && r == Returned && warnings == old(warnings) + [InsideBeginEnd]
      ensures !old(openShape) && !perVertexStyles ==>
                Rows() == old(Rows()) && r == Returned && warnings == old(warnings) + [PerVertexUnsupported]
      ensures !old(openShape) && perVertexStyles ==>
                var t := Touched(old(Rows()), i, FillWrites(c));
                Rows() == t.0 && r == t.1 && warnings == old(warnings) + Bounds(i)
      ensures (!old(openShape) && perVertexStyles && image.None? && old(Rows()).Some?
               && Holds(old(Rows()).value, i, ArgbWrites(c, A, R, G, B))) ==> r == Returned && GetFill(i) == Ok(c)
    {
      if openShape {
        warnings := warnings + [InsideBeginEnd];
        return Returned;
      }
      r := PerVertex(i, FillWrites(c), true);
      if perVertexStyles && image.None? && old(Rows()).Some? && Holds(old(Rows()).value, i, ArgbWrites(c, A, R, G, B)) {
        ArgbRoundTrip(old(Rows()).value, i, c, A, R, G, B);
      }
    }

    /** setFill(c): the fill colour, then setFill(i, c) for every vertex in use when per-vertex styles are on. */
    method SetFillColor(c: Int32) returns (r: Outcome)
      modifies this`fillColor, vertices, this`warnings
      ensures !old(openShape) ==>
                warnings == old(warnings) + (if perVertexStyles && vertices != null && r.Returned? then MissingFrom(vertices.Length, Iterations(vertexCount)) else [])
      ensures old(openShape) ==>
                fillColor == old(fillColor) && Rows() == old(Rows()) && r == Returned && warnings == old(warnings) + [InsideBeginEnd]
      ensures !old(openShape) && !perVertexStyles ==> fillColor == c && Rows() == old(Rows()) && r == Returned
      ensures !old(openShape) && perVertexStyles ==>
                var s := Swept(old(Rows()), Iterations(vertexCount), FillWrites(c));
                fillColor == c && Rows() == s.0 && r == s.1
      ensures !old(openShape) && perVertexStyles && image.None? && old(Rows()).Some?
              && (forall k :: 0 <= k < Min(Iterations(vertexCount), old(vertices.Length)) ==> Holds(old(Rows()).value, k, ArgbWrites(c, A, R, G, B)))
              ==> r == Returned && forall k :: 0 <= k < Min(Iterations(vertexCount), vertices.Length) ==> GetFill(k) == Ok(c)
    {
      if openShape {
        warnings := warnings + [InsideBeginEnd];
        return Returned;
      }
      fillColor := c;
      r := Returned;
      if vertices != null && perVertexStyles {
        r := SweepVertices(Iterations(vertexCount), FillWrites(c), true);
        if image.None? && (forall k :: 0 <= k < Min(Iterations(vertexCount), vertices.Length) ==> Holds(old(Rows()).value, k, ArgbWrites(c, A, R, G, B))) {
          SweptArgb(old(Rows()).value, Iterations(vertexCount), c, A, R, G, B);
        }
      }
    }

    /** setTint(index, c): no per-vertex style test. */
    method SetTintAt(i: int, c: Int32) returns (r: Outcome)
      modifies vertices, this`warnings
      ensures old(openShape) ==> Rows() == old(Rows()) && r == Returned && warnings == old(warnings) + [InsideBeginEnd]
      ensures !old(openShape) ==>
                var t := Touched(old(Rows()), i, TintWrites(c));
                Rows() == t.0 && r == t.1 && warnings == old(warnings) + Bounds(i)
      ensures (!old(openShape) && image.Some? && old(Rows()).Some?
               && Holds(old(Rows()).value, i, ArgbWrites(c, A, R, G, B))) ==> r == Returned && GetTint(i) == Ok(c)
    {
      if openShape {
        warnings := warnings + [InsideBeginEnd];
        return Returned;
      }
      r := PerVertex(i, TintWrites(c), false);
      if image.Some? && old(Rows()).Some? && Holds(old(Rows()).value, i, ArgbWrites(c, A, R, G, B)) {
        ArgbRoundTrip(old(Rows()).value, i, c, A, R, G, B);
      }
    }

    /**
     * setTint(c): the tint colour, then over the whole capacity the loop
     * calls setFill(i, c), not setTint(i, c): with per-vertex styles on an
     * untextured shape it rewrites the fill fields.
     */
    method SetTintColor(c: Int32) returns (r: Outcome)
      modifies this`tintColor, vertices, this`warnings
      ensures !old(openShape) ==> warnings == old(warnings) + (if vertices != null && !perVertexStyles then Unsupported(vertices.Length) else [])
      ensures old(openShape) ==>
                tintColor == old(tintColor) && Rows() == old(Rows()) && r == Returned && warnings == old(warnings) + [InsideBeginEnd]
      ensures !old(openShape) && !perVertexStyles ==> tintColor == c && Rows() == old(Rows()) && r == Returned
      ensures !old(openShape) && perVertexStyles ==>
                var s := Swept(old(Rows()), old(if vertices == null then 0 else vertices.Length), FillWrites(c));
                tintColor == c && Rows() == s.0 && r == s.1
      ensures !old(openShape) && perVertexStyles && image.None? && old(Rows()).Some?
              && (forall k :: 0 <= k < old(vertices.Length) ==> Holds(old(Rows()).value, k, ArgbWrites(c, A, R, G, B)))
              ==> r == Returned && forall k :: 0 <= k < vertices.Length ==> GetFill(k) == Ok(c)
    {
      if openShape {
        warnings := warnings + [InsideBeginEnd];
        return Returned;
      }
      tintColor := c;
      r := Returned;
      if vertices != null {
        r := SweepVertices(vertices.Length, FillWrites(c), true);
        if perVertexStyles && image.None? && (forall k :: 0 <= k < vertices.Length ==> Holds(old(Rows()).value, k, ArgbWrites(c, A, R, G, B))) {
          SweptArgb(old(Rows()).value, vertices.Length, c, A, R, G, B);
        }
      }
    }

    /** setStroke(index, c): the stroke colour's bytes into SA, SR, SG, SB. */
    method SetStrokeAt(i: int, c: Int32) returns (r: Outcome)
      modifies vertices, this`warnings
      ensures old(openShape) ==> Rows() == old(Rows()) && r == Returned && warnings == old(warnings) + [InsideBeginEnd]
      ensures !old(openShape) && !perVertexStyles ==>
                Rows() == old(Rows()) && r == Returned && warnings == old(warnings) + [PerVertexUnsupported]
      ensures !old(openShape) && perVertexStyles ==>
                var t := Touched(old(Rows()), i, ArgbWrites(c, SA, SR, SG, SB));
                Rows() == t.0 && r == t.1 && warnings == old(warnings) + Bounds(i)
      ensures (!old(openShape) && perVertexStyles && old(Rows()).Some?
               && Holds(old(Rows()).value, i, ArgbWrites(c, SA, SR, SG, SB))) ==> r == Returned && GetStroke(i) == Ok(c)
    {
      if openShape {
        warnings := warnings + [InsideBeginEnd];
        return Returned;
      }
      r := PerVertex(i, ArgbWrites(c, SA, SR, SG, SB), true);
      if perVertexStyles && old(Rows()).Some? && Holds(old(Rows()).value, i, ArgbWrites(c, SA, SR, SG, SB)) {
        ArgbRoundTrip(old(Rows()).value, i, c, SA, SR, SG, SB);
      }
    }

    /** setStroke(c): the stroke colour, then setStroke(i, c) over the whole capacity when per-vertex styles are on. */
    method SetStrokeColor(c: Int32) returns (r: Outcome)
      modifies this`strokeColor, vertices, this`warnings
      ensures !old(openShape) ==> warnings == old(warnings)
      ensures old(openShape) ==>
                strokeColor == old(strokeColor) && Rows() == old(Rows()) && r == Returned && warnings == old(warnings) + [InsideBeginEnd]
      ensures !old(openShape) && !perVertexStyles ==> strokeColor == c && Rows() == old(Rows()) && r == Returned
      ensures !old(openShape) && perVertexStyles ==>
                var s := Swept(old(Rows()), old(if vertices == null then 0 else vertices.Length), ArgbWrites(c, SA, SR, SG, SB));
                strokeColor == c && Rows() == s.0 && r == s.1
      ensures !old(openShape) && perVertexStyles && old(Rows()).Some?
              && (forall k :: 0 <= k < old(vertices.Length) ==> Holds(old(Rows()).value, k, ArgbWrites(c, SA, SR, SG, SB)))
              ==> r == Returned && forall k :: 0 <= k < vertices.Length ==> GetStroke(k) == Ok(c)
    {
      if openShape {
        warnings := warnings + [InsideBeginEnd];
        return Returned;
      }
      strokeColor := c;
      r := Returned;
      if vertices != null && perVertexStyles {
        r := SweepVertices(vertices.Length, ArgbWrites(c, SA, SR, SG, SB), true);
        if forall k :: 0 <= k < vertices.Length ==> Holds(old(Rows()).value, k, ArgbWrites(c, SA, SR, SG, SB)) {
          SweptArgb(old(Rows()).value, vertices.Length, c, SA, SR, SG, SB);
        }
      }
    }

    /** setStrokeWeight(index, w). */
    method SetStrokeWeightAt(i: int, w: real) returns (r: Outcome)
      modifies vertices, this`warnings
      ensures old(openShape) ==> Rows() == old(Rows()) && r == Returned && warnings == old(warnings) + [InsideBeginEnd]
      ensures !old(openShape) && !perVertexStyles ==>
                Rows() == old(Rows()) && r == Returned && warnings == old(warnings) + [PerVertexUnsupported]
      ensures !old(openShape) && perVertexStyles ==>
                var t := Touched(old(Rows()), i, [(SW, w)]);
                Rows() == t.0 && r == t.1 && warnings == old(warnings) + Bounds(i)
      ensures (!old(openShape) && perVertexStyles && old(Rows()).Some?
               && Holds(old(Rows()).value, i, [(SW, w)])) ==> r == Returned && GetStrokeWeight(i) == Ok(w)
    {
      if openShape {
        warnings := warnings + [InsideBeginEnd];
        return Returned;
      }
      r := PerVertex(i, [(SW, w)], true);
      if perVertexStyles && old(Rows()).Some? && Holds(old(Rows()).value, i, [(SW, w)]) {
        AssignedFields(old(Rows()), i, [(SW, w)]);
        assert [(SW, w)][0].0 == SW;
      }
    }

    /** setStrokeWeight(w): the weight, then setStrokeWeight(i, w) for every vertex in use when per-vertex styles are on. */
    method SetStrokeWeight(w: real) returns (r: Outcome)
      modifies this`strokeWeight, vertices, this`warnings
      ensures !old(openShape) ==>
                warnings == old(warnings) + (if perVertexStyles && vertices != null && r.Returned? then MissingFrom(vertices.Length, Iterations(vertexCount)) else [])
      ensures old(openShape) ==>
                strokeWeight == old(strokeWeight) && Rows() == old(Rows()) && r == Returned && warnings == old(warnings) + [InsideBeginEnd]
      ensures !old(openShape) && !perVertexStyles ==> strokeWeight == w && Rows() == old(Rows()) && r == Returned
      ensures !old(openShape) && perVertexStyles ==>
                var s := Swept(old(Rows()), Iterations(vertexCount), [(SW, w)]);
                strokeWeight == w && Rows() == s.0 && r == s.1
      ensures !old(openShape) && perVertexStyles && old(Rows()).Some?
              && (forall k :: 0 <= k < Min(Iterations(vertexCount), old(vertices.Length)) ==> Holds(old(Rows()).value, k, [(SW, w)]))
              ==> r == Returned && forall k :: 0 <= k < Min(Iterations(vertexCount), vertices.Length) ==> GetStrokeWeight(k) == Ok(w)
    {
      if openShape {
        warnings := warnings + [InsideBeginEnd];
        return Returned;
      }
      strokeWeight := w;
      r := Returned;
      if vertices != null && perVertexStyles {
        r := SweepVertices(Iterations(vertexCount), [(SW, w)], true);
        if forall k :: 0 <= k < Min(Iterations(vertexCount), vertices.Length) ==> Holds(old(Rows()).value, k, [(SW, w)]) {
          SweptField(old(Rows()).value, Iterations(vertexCount), SW, w);
        }
      }
    }

    /** setAmbient(index, c): red, green and blue into AR, AG, AB; it reads back with an opaque alpha. */
    method SetAmbientAt(i: int, c: Int32) returns (r: Outcome)
      modifies vertices, this`warnings
      ensures old(openShape) ==> Rows() == old(Rows()) && r == Returned && warnings == old(warnings) + [InsideBeginEnd]
      ensures !old(openShape) ==>
                var t := Touched(old(Rows()), i, RgbWrites(c, AR, AG, AB));
                Rows() == t.0 && r == t.1 && warnings == old(warnings) + Bounds(i)
      ensures (!old(openShape) && old(Rows()).Some? && Holds(old(Rows()).value, i, RgbWrites(c, AR, AG, AB))) ==>
                r == Returned && GetAmbient(i) == Ok(Pack(255, ByteAt(c, 16), ByteAt(c, 8), ByteAt(c, 0)))
    {
      if openShape {
        warnings := warnings + [InsideBeginEnd];
        return Returned;
      }
      r := PerVertex(i, RgbWrites(c, AR, AG, AB), false);
      if old(Rows()).Some? && Holds(old(Rows()).value, i, RgbWrites(c, AR, AG, AB)) {
        OpaqueRoundTrip(old(Rows()).value, i, c, AR, AG, AB);
      }
    }

    /** setAmbient(c): the colour, then setAmbient(i, c) over the whole capacity. */
    method SetAmbientColor(c: Int32) returns (r: Outcome)
      modifies this`ambientColor, vertices, this`warnings
      ensures !old(openShape) ==> warnings == old(warnings)
      ensures old(openShape) ==>
                ambientColor == old(ambientColor) && Rows() == old(Rows()) && r == Returned && warnings == old(warnings) + [InsideBeginEnd]
      ensures !old(openShape) ==>
                var s := Swept(old(Rows()), old(if vertices == null then 0 else vertices.Length), RgbWrites(c, AR, AG, AB));
                ambientColor == c && Rows() == s.0 && r == s.1
      ensures !old(openShape) && old(Rows()).Some?
              && (forall k :: 0 <= k < old(vertices.Length) ==> Holds(old(Rows()).value, k, RgbWrites(c, AR, AG, AB)))
              ==> r == Returned && forall k :: 0 <= k < vertices.Length ==> GetAmbient(k) == Ok(Pack(255, ByteAt(c, 16), ByteAt(c, 8), ByteAt(c, 0)))
    {
      if openShape {
        warnings := warnings + [InsideBeginEnd];
        return Returned;
      }
      ambientColor := c;
      r := Returned;
      if vertices != null {
        r := SweepVertices(vertices.Length, RgbWrites(c, AR, AG, AB), false);
        if forall k :: 0 <= k < vertices.Length ==> Holds(old(Rows()).value, k, RgbWrites(c, AR, AG, AB)) {
          SweptOpaque(old(Rows()).value, vertices.Length, c, AR, AG, AB);
        }
      }
    }

    /** setSpecular(index, c): red, green and blue into SPR, SPG, SPB; it reads back with an opaque alpha. */
    method SetSpecularAt(i: int, c: Int32) returns (r: Outcome)
      modifies vertices, this`warnings
      ensures old(openShape) ==> Rows() == old(Rows()) && r == Returned && warnings == old(warnings) + [InsideBeginEnd]
      ensures !old(openShape) ==>
                var t := Touched(old(Rows()), i, RgbWrites(c, SPR, SPG, SPB));
                Rows() == t.0 && r == t.1 && warnings == old(warnings) + Bounds(i)
      ensures (!old(openShape) && old(Rows()).Some? && Holds(old(Rows()).value, i, RgbWrites(c, SPR, SPG, SPB))) ==>
                r == Returned && GetSpecular(i) == Ok(Pack(255, ByteAt(c, 16), ByteAt(c, 8), ByteAt(c, 0)))
    {
      if openShape {
        warnings := warnings + [InsideBeginEnd];
        return Returned;
      }
      r := PerVertex(i, RgbWrites(c, SPR, SPG, SPB), false);
      if old(Rows()).Some? && Holds(old(Rows()).value, i, RgbWrites(c, SPR, SPG, SPB)) {
        OpaqueRoundTrip(old(Rows()).value, i, c, SPR, SPG, SPB);
      }
    }

    /** setSpecular(c): the colour, then setSpecular(i, c) over the whole capacity. */
    method SetSpecularColor(c: Int32) returns (r: Outcome)
      modifies this`specularColor, vertices, this`warnings
      ensures !old(openShape) ==> warnings == old(warnings)
      ensures old(openShape) ==>
                specularColor == old(specularColor) && Rows() == old(Rows()) && r == Returned && warnings == old(warnings) + [InsideBeginEnd]
      ensures !old(openShape) ==>
                var s := Swept(old(Rows()), old(if vertices == null then 0 else vertices.Length), RgbWrites(c, SPR, SPG, SPB));
                specularColor == c && Rows() == s.0 && r == s.1
      ensures !old(openShape) && old(Rows()).Some?
              && (forall k :: 0 <= k < old(vertices.Length) ==> Holds(old(Rows()).value, k, RgbWrites(c, SPR, SPG, SPB)))
              ==> r == Returned && forall k :: 0 <= k < vertices.Length ==> GetSpecular(k) == Ok(Pack(255, ByteAt(c, 16), ByteAt(c, 8), ByteAt(c, 0)))
    {
      if openShape {
        warnings := warnings + [InsideBeginEnd];
        return Returned;
      }
      specularColor := c;
      r := Returned;
      if vertices != null {
        r := SweepVertices(vertices.Length, RgbWrites(c, SPR, SPG, SPB), false);
        if forall k :: 0 <= k < vertices.Length ==> Holds(old(Rows()).value, k, RgbWrites(c, SPR, SPG, SPB)) {
          SweptOpaque(old(Rows()).value, vertices.Length, c, SPR, SPG, SPB);
        }
      }
    }

    /** setEmissive(index, c): red, green and blue into ER, EG, EB; it reads back with an opaque alpha. */
    method SetEmissiveAt(i: int, c: Int32) returns (r: Outcome)
      modifies vertices, this`warnings
      ensures old(openShape) ==> Rows() == old(Rows()) && r == Returned && warnings == old(warnings) + [InsideBeginEnd]
      ensures !old(openShape) ==>
                var t := Touched(old(Rows()), i, RgbWrites(c, ER, EG, EB));
                Rows() == t.0 && r == t.1 && warnings == old(warnings) + Bounds(i)
      ensures (!old(openShape) && old(Rows()).Some? && Holds(old(Rows()).value, i, RgbWrites(c, ER, EG, EB))) ==>
                r == Returned && GetEmissive(i) == Ok(Pack(255, ByteAt(c, 16), ByteAt(c, 8), ByteAt(c, 0)))
    {
      if openShape {
        warnings := warnings + [InsideBeginEnd];
        return Returned;
      }
      r := PerVertex(i, RgbWrites(c, ER, EG, EB), false);
      if old(Rows()).Some? && Holds(old(Rows()).value, i, RgbWrites(c, ER, EG, EB)) {
        OpaqueRoundTrip(old(Rows()).value, i, c, ER, EG, EB);
      }
    }

    /** setEmissive(c): the colour, then setEmissive(i, c) over the whole capacity. */
    method SetEmissiveColor(c: Int32) returns (r: Outcome)
      modifies this`emissiveColor, vertices, this`warnings
      ensures !old(openShape) ==> warnings == old(warnings)
      ensures old(openShape) ==>
                emissiveColor == old(emissiveColor) && Rows() == old(Rows()) && r == Returned && warnings == old(warnings) + [InsideBeginEnd]
      ensures !old(openShape) ==>
                var s := Swept(old(Rows()), old(if vertices == null then 0 else vertices.Length), RgbWrites(c, ER, EG, EB));
                emissiveColor == c && Rows() == s.0 && r == s.1
      ensures !old(openShape) && old(Rows()).Some?
              && (forall k :: 0 <= k < old(vertices.Length) ==> Holds(old(Rows()).value, k, RgbWrites(c, ER, EG, EB)))
              ==> r == Returned && forall k :: 0 <= k < vertices.Length ==> GetEmissive(k) == Ok(Pack(255, ByteAt(c, 16), ByteAt(c, 8), ByteAt(c, 0)))
    {
      if openShape {
        warnings := warnings + [InsideBeginEnd];
        return Returned;
      }
      emissiveColor := c;
      r := Returned;
      if vertices != null {
        r := SweepVertices(vertices.Length, RgbWrites(c, ER, EG, EB), false);
        if forall k :: 0 <= k < vertices.Length ==> Holds(old(Rows()).value, k, RgbWrites(c, ER, EG, EB)) {
          SweptOpaque(old(Rows()).value, vertices.Length, c, ER, EG, EB);
        }
      }
    }

    /** setShininess(index, s). */
    method SetShininessAt(i: int, s: real) returns (r: Outcome)
      modifies vertices, this`warnings
      ensures old(openShape) ==> Rows() == old(Rows()) && r == Returned && warnings == old(warnings) + [InsideBeginEnd]
      ensures !old(openShape) ==>
                var t := Touched(old(Rows()), i, [(SHINE, s)]);
                Rows() == t.0 && r == t.1 && warnings == old(warnings) + Bounds(i)
      ensures (!old(openShape) && old(Rows()).Some? && Holds(old(Rows()).value, i, [(SHINE, s)])) ==>
                r == Returned && GetShininess(i) == Ok(s)
    {
      if openShape {
        warnings := warnings + [InsideBeginEnd];
        return Returned;
      }
      r := PerVertex(i, [(SHINE, s)], false);
      if old(Rows()).Some? && Holds(old(Rows()).value, i, [(SHINE, s)]) {
        AssignedFields(old(Rows()), i, [(SHINE, s)]);
        assert [(SHINE, s)][0].0 == SHINE;
      }
    }

    /** setShininess(s): the shininess, then setShininess(i, s) over the whole capacity. */
    method SetShininess(s: real) returns (r: Outcome)
      modifies this`shininess, vertices, this`warnings
      ensures !old(openShape) ==> warnings == old(warnings)
      ensures old(openShape) ==>
                shininess == old(shininess) && Rows() == old(Rows()) && r == Returned && warnings == old(warnings) + [InsideBeginEnd]
      ensures !old(openShape) ==>
                var w := Swept(old(Rows()), old(if vertices == null then 0 else vertices.Length), [(SHINE, s)]);
                shininess == s && Rows() == w.0 && r == w.1
      ensures !old(openShape) && old(Rows()).Some?
              && (forall k :: 0 <= k < old(vertices.Length) ==> Holds(old(Rows()).value, k, [(SHINE, s)]))
              ==> r == Returned && forall k :: 0 <= k < vertices.Length ==> GetShininess(k) == Ok(s)
    {
      if openShape {
        warnings := warnings + [InsideBeginEnd];
        return Returned;
      }
      shininess := s;
      r := Returned;
      if vertices != null {
        r := SweepVertices(vertices.Length, [(SHINE, s)], false);
        if forall k :: 0 <= k < vertices.Length ==> Holds(old(Rows()).value, k, [(SHINE, s)]) {
          SweptField(old(Rows()).value, vertices.Length, SHINE, s);
        }
      }
    }

    // -------------------------------------------------------------------
    // Parameters, bulk path copy and the code array

    /** getParams(target): the target when it has the right size, else a new array; either way a copy of mparams. */
    method GetParams(target: array?<real>) returns (r: Result<array<real>>)
      modifies target
      ensures params == null ==> r == Throws(NullPointer) && (target != null ==> target[..] == old(target[..]))
      ensures params != null ==> r.Ok? && r.value[..] == old(params[..])
      ensures params != null && target != null && target.Length == params.Length ==> r.Ok? && r.value == target
      ensures params != null && (target == null || target.Length != params.Length) ==>
                fresh(r.value) && (target != null ==> target[..] == old(target[..]))
    {
      if params == null {
        return Throws(NullPointer);
      }
      var out := target;
      if out == null || out.Length != params.Length {
        out := new real[params.Length];
      }
      ghost var source := params[..];
      var k := 0;
      while k < params.Length
        invariant 0 <= k <= params.Length == out.Length
        invariant out[..k] == source[..k] && params[k..] == source[k..]
        invariant out != target ==> fresh(out) && (target != null ==> target[..] == old(target[..]))
      {
        out[k] := params[k];
        k := k + 1;
        assert out[..k] == out[..k - 1] + [source[k - 1]];
      }
      assert out[..] == out[..k] && source == source[..k];
      return Ok(out);
    }

    /** getParam(index): `mparams!![index]`. */
    function GetParam(i: int): (r: Result<real>)
      reads this`params, params
      ensures r.Ok? <==> params != null && 0 <= i < params.Length
      ensures r.Ok? ==> r.value == params[i]
      ensures params == null ==> r == Throws(NullPointer)
    {
      if params == null then Throws(NullPointer)
      else if 0 <= i < params.Length then Ok(params[i])
      else Throws(IndexOutOfBounds)
    }

    /** setParams(source): a missing array is made to size; a different size is refused with a warning. */
    method SetParams(source: seq<real>)
      modifies this`params, params, this`warnings
      ensures old(params) == null ==> fresh(params) && warnings == old(warnings)
      ensures old(params) != null ==> params == old(params)
      ensures old(params) != null && old(params.Length) != |source| ==>
                params[..] == old(params[..]) && warnings == old(warnings) + [WrongParamCount]
      ensures old(params) == null || old(params.Length) == |source| ==>
                params[..] == source && warnings == old(warnings)
                && forall i :: 0 <= i < |source| ==> GetParam(i) == Ok(source[i])
    {
      var p := params;
      if p == null {
        p := new real[|source|];
        params := p;
      }
      if |source| != p.Length {
        warnings := warnings + [WrongParamCount];
        return;
      }
      var k := 0;
      while k < |source|
        invariant 0 <= k <= |source| == p.Length && params == p && warnings == old(warnings)
        invariant if old(params) == null then fresh(p) else p == old(params)
        invariant p[..k] == source[..k]
      {
        p[k] := source[k];
        k := k + 1;
        assert p[..k] == p[..k - 1] + [source[k - 1]];
      }
      assert p[..] == p[..k] && source == source[..k];
    }

    /**
     * setPath(vcount, verts, ccount, codes), with the two source arrays as
     * values: it only reads them.
     */
    method SetPath(vcount: int, verts: Option<Rows>, ccount: int, givenCodes: Option<seq<int>>) returns (r: Outcome)
      modifies this`vertexCount, this`vertices, this`codeCount, this`codes
      ensures var p := PathSet(old(Snapshot()), vcount, verts, ccount, givenCodes); Snapshot() == p.0 && r == p.1
      ensures vertices == old(vertices) || fresh(vertices)
      ensures codes == old(codes) || fresh(codes)
    {
      if verts.None? || |verts.value| < vcount {
        return Returned;
      }
      if 0 < ccount && (givenCodes.None? || |givenCodes.value| < ccount) {
        return Returned;
      }
      if |verts.value| == 0 {
        return Raised(IndexOutOfBounds);
      }
      if verts.value[0].None? {
        return Raised(NullPointer);
      }
      var ndim := |verts.value[0].value|;
      vertexCount := vcount;
      if vcount < 0 {
        return Raised(NegativeArraySize);
      }
      var rows := new Option<seq<real>>[vcount](_ => Some(Zeros(ndim)));
      assert rows[..] == ZeroRows(vcount, ndim);
      vertices := rows;
      r := CopyRows(rows, verts.value, ndim);
      if r.Raised? {
        return;
      }
      codeCount := ccount;
      if 0 < ccount {
        var a := new int[ccount](k requires 0 <= k < ccount => givenCodes.value[k]);
        assert a[..] == givenCodes.value[..ccount];
        codes := a;
      }
      r := Returned;
    }

    /** The copy loop of setPath(): `arrayCopy(verts[i], vertices!![i])` for each row. */
    static method CopyRows(rows: array<Option<seq<real>>>, verts: Rows, ndim: nat) returns (r: Outcome)
      requires rows.Length <= |verts|
      modifies rows
      ensures var c := Copied(old(rows[..]), verts, ndim, rows.Length); rows[..] == c.0 && r == c.1
    {
      ghost var start := rows[..];
      var i := 0;
      while i < rows.Length
        invariant 0 <= i <= rows.Length
        invariant rows[..] == Copied(start, verts, ndim, i).0 && Copied(start, verts, ndim, i).1 == Returned
      {
        var row := CopyRow(verts[i], ndim);
        if row.Throws? {
          CopiedHalts(start, verts, ndim, i + 1, rows.Length);
          return Raised(row.error);
        }
        rows[i] := Some(row.value);
        i := i + 1;
      }
      r := Returned;
    }

    /** getVertexCodes(): a code array longer or shorter than mvertexCodeCount is first replaced by its first mvertexCodeCount entries. */
    method GetVertexCodes() returns (r: Result<Option<array<int>>>)
      modifies this`codes
      ensures old(codes) == null ==> codes == null && r == Ok(None)
      ensures old(codes) != null && old(codes.Length) == codeCount ==> codes == old(codes) && r == Ok(Some(codes))
      ensures old(codes) != null && old(codes.Length) != codeCount && 0 <= codeCount <= old(codes.Length) ==>
                fresh(codes) && r == Ok(Some(codes))
      ensures old(codes) != null && 0 <= codeCount <= old(codes.Length) ==>
                codes != null && codes[..] == old(codes[..codeCount]) && Entries(Snapshot()) == old(Entries(Snapshot()))
      ensures old(codes) != null && codeCount < 0 ==> codes == old(codes) && r == Throws(NegativeArraySize)
      ensures old(codes) != null && codeCount > old(codes.Length) ==> codes == old(codes) && r == Throws(IndexOutOfBounds)
    {
      if codes == null {
        return Ok(None);
      }
      if codes.Length != codeCount {
        if codeCount < 0 {
          return Throws(NegativeArraySize);
        }
        if codeCount > codes.Length {
          return Throws(IndexOutOfBounds);
        }
        var kept, n := codes, codeCount;
        var a := new int[n](k requires 0 <= k < n reads kept => kept[k]);
        assert a[..] == kept[..n];
        codes := a;
      }
      assert codes[..] == old(codes[..codeCount]);
      return Ok(Some(codes));
    }

    /** getVertexCode(index): `mvertexCodes!![index]`, past the count as well. */
    function GetVertexCode(i: int): (r: Result<int>)
      reads this`codes, codes
      ensures r.Ok? <==> codes != null && 0 <= i < codes.Length
      ensures r.Ok? ==> r.value == codes[i]
      ensures codes == null ==> r == Throws(NullPointer)
    {
      if codes == null then Throws(NullPointer)
      else if 0 <= i < codes.Length then Ok(codes[i])
      else Throws(IndexOutOfBounds)
    }

    /** getVertexCount(): the count, with a warning on a group or a primitive, which keep no vertices. */
    method GetVertexCount() returns (n: int)
      modifies this`warnings
      ensures n == vertexCount
      ensures warnings == old(warnings) + (if family == GROUP || family == PRIMITIVE then [NoVertices] else [])
    {
      if family == GROUP || family == PRIMITIVE {
        warnings := warnings + [NoVertices];
      }
      n := vertexCount;
    }

    // -------------------------------------------------------------------
    // Loading the image of a rect and drawing

    /**
     * loadImage(): a data URL's image or a file URL's image becomes the
     * texture through setTexture(), and the path is cleared afterwards; an
     * exception while reading the data URL, which parseHexBinary raises for
     * a payload that is not also hex, leaves both as they were.
     */
    method LoadImage(loader: string -> Option<Image>) returns (r: Outcome)
      modifies this`image, this`imagePath, this`warnings
      ensures old(imagePath).None? ==> r == Raised(NullPointer) && image == old(image) && imagePath == old(imagePath)
      ensures old(imagePath).Some? ==>
                var l := LoadedImage(old(imagePath).value, old(image), openShape, loader);
                && (l.Ok? ==> r == Returned && image == l.value && imagePath.None?)
                && (l.Throws? ==> r == Raised(l.error) && image == old(image) && imagePath == old(imagePath))
    {
      if imagePath.None? {
        return Raised(NullPointer);
      }
      var source := SourceAsWritten(imagePath.value);
      if source.Throws? {
        return Raised(source.error);
      }
      match source.value {
        case Embedded(extension, bytes) =>
          SetTexture(Some(Decoded(extension, bytes, NeedsAlphaCheck(extension))));
        case FileSystem(file) =>
          imagePath := Some(file);
          var loaded := loader(file);
          if loaded.Some? {
            SetTexture(loaded);
          }
        case Undecodable(_) =>
        case NoSource =>
      }
      imagePath := None;
      r := Returned;
    }

    /** What draw() reads of the shape. */
    function Data(): ShapeData
      reads this, vertices, codes, params
    {
      ShapeData(family, kind, visible, matrix, style,
                StyleData(stroke, strokeColor, strokeWeight, strokeCap, strokeJoin, fill, fillColor),
                ParamValues(), Rows(), vertexCount, Stream(Codes(), codeCount), close,
                rectMode, ellipseMode, image, imagePath, openShape)
    }

    /** drawPath(): the loop over the codes in use, or over the vertices when there are none. */
    method DrawPath() returns (t: Replay)
      ensures t == DrawnPath(Rows(), vertexCount, Stream(Codes(), codeCount), close)
    {
      if vertices == null {
        return Emit([]);
      }
      var probe := Probe(vertices[..]);
      if probe.Throws? {
        return Replay([Cmd.BeginShape], Some(probe.error));
      }
      var calls, index, inside, error := CodeLoop(probe.value);
      if error.Some? {
        return Replay([Cmd.BeginShape] + calls, error);
      }
      DrawnPathLooped(vertices[..], vertexCount, Stream(Codes(), codeCount), close);
      if inside {
        calls := calls + [Cmd.EndContour];
      }
      t := Emit([Cmd.BeginShape] + calls + [Cmd.EndShape(EndMode(close))]);
    }

    /**
     * The loops of drawPath() after beginShape(): over the vertices when
     * there are no codes, else over the codes, with the source's loop variables.
     */
    method CodeLoop(threeD: bool) returns (calls: seq<Cmd>, index: nat, inside: bool, error: Option<Exception>)
      requires vertices != null
      ensures PathState(calls, index, inside, error) == Looped(vertices[..], threeD, Stream(Codes(), codeCount), vertexCount)
    {
      var stream := Stream(Codes(), codeCount);
      ghost var cs := StreamCodes(stream, vertexCount);
      var n := if codeCount == 0 then Iterations(vertexCount) else Iterations(codeCount);
      calls, index, inside, error := [], 0, false, None;
      var j := 0;
      while j < n
        invariant 0 <= j <= |cs| && (stream.Cut? || n == |cs|)
        invariant Run(vertices[..], threeD, cs, j) == PathState(calls, index, inside, None) && error.None?
      {
        var code := VERTEX;
        if codeCount != 0 {
          if codes == null || j >= codes.Length {
            return calls, index, inside, Some(stream.fault);
          }
          code := codes[j];
        }
        assert code == cs[j];
        calls, index, inside, error := PathStep(vertices[..], threeD, code, calls, index, inside);
        if error.Some? {
          RunErrorSticks(vertices[..], threeD, cs, j + 1, |cs|);
          return;
        }
        j := j + 1;
      }
    }

    /** One pass of drawPath's `when (mvertexCodes!![j])`, on the loop variables. */
    static method PathStep(rows: Rows, threeD: bool, code: int, calls: seq<Cmd>, index: nat, inside: bool)
      returns (calls': seq<Cmd>, index': nat, inside': bool, error: Option<Exception>)
      ensures Step(rows, threeD, PathState(calls, index, inside, None), code) == PathState(calls', index', inside', error)
    {
      calls', index', inside', error := calls, index, inside, None;
      if code == BREAK {
        if inside {
          calls' := calls' + [Cmd.EndContour];
        }
        calls' := calls' + [Cmd.BeginContour];
        inside' := true;
      } else if Paths.Drawing(code) {
        var coords := Fetch(rows, Refs(code, index, threeD));
        if coords.Throws? {
          error := Some(coords.error);
          return;
        }
        calls' := calls' + [Emitted(code, coords.value)];
        index' := index + Stride(code);
      }
    }

    /** drawGeometry(): beginShape(kind), a vertex call per vertex in use, endShape(). */
    method DrawGeometry() returns (t: Replay)
      ensures t == GeometryTrace(Rows(), vertexCount, kind, style, close)
    {
      var calls := [];
      var i := 0;
      while i < Iterations(vertexCount)
        invariant 0 <= i <= Iterations(vertexCount)
        invariant GeometryRun(Rows(), style, i) == Emit(calls)
      {
        var call := GeometryVertex(Rows(), style, i);
        if call.Throws? {
          GeometryRunSticks(Rows(), style, i + 1, Iterations(vertexCount));
          return Replay([BeginShapeKind(kind)] + calls, Some(call.error));
        }
        calls := calls + [call.value];
        i := i + 1;
      }
      t := Emit([BeginShapeKind(kind)] + calls + [Cmd.EndShape(EndMode(close))]);
    }

    /**
     * draw(): nothing when invisible, else pre(), drawImpl() and post().
     * A GROUP draws `children`, the calls of its children in order.
     */
    method Draw(loader: string -> Option<Image>, children: Replay) returns (t: Replay)
      modifies this`image, this`imagePath, this`warnings
      ensures t == NodeTrace(old(Data()), loader, children)
      ensures !old(visible) ==> image == old(image) && imagePath == old(imagePath)
    {
      if !visible {
        return Emit([]);
      }
      var pre := Pre(matrix, style, StyleData(stroke, strokeColor, strokeWeight, strokeCap, strokeJoin, fill, fillColor));
      var post := Post(matrix, style);
      var impl := DrawImpl(loader, children);
      t := Then(Emit(pre), Then(impl, Emit(post)));
    }

    /**
     * drawImpl(): dispatch on the family. A rect with a pending image path
     * loads it first, and the image it loads stays with the shape.
     */
    method DrawImpl(loader: string -> Option<Image>, children: Replay) returns (impl: Replay)
      modifies this`image, this`imagePath, this`warnings
      ensures impl == Impl(old(Data()), loader, children)
      ensures (family != PRIMITIVE || kind != RECT || old(imagePath).None?) ==>
                image == old(image) && imagePath == old(imagePath)
    {
      if family == GROUP {
        impl := children;
      } else if family == PRIMITIVE {
        if kind == RECT && imagePath.Some? {
          var r := LoadImage(loader);
          if r.Raised? {
            impl := Replay([], Some(r.error));
          } else {
            impl := PrimitiveTrace(kind, ParamValues(), rectMode, ellipseMode, image);
          }
        } else {
          impl := PrimitiveTrace(kind, ParamValues(), rectMode, ellipseMode, image);
        }
      } else if family == GEOMETRY {
        impl := DrawGeometry();
      } else if family == PATH {
        impl := DrawPath();
      } else {
        impl := Emit([]);
      }
    }
  }
}
