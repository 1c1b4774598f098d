/**
 * The renderer a shape draws itself into, PGraphics, seen from the shape:
 * the sequence of calls the shape makes on it. What the renderer does with
 * the calls is not part of this model.
 */
module Render {
  import opened Base
  import opened Transforms

  /**
   * A PImage: one handed to texture()/setTexture() or returned by the
   * application's loader (Texture), or one made from the bytes of a data
   * URL (Decoded), which the shape checks for transparency for gif, png and
   * unknown extensions.
   */
  datatype Image =
    | Texture(id: nat)
    | Decoded(extension: string, bytes: seq<Byte>, alphaChecked: bool)

  /** The primitive drawing calls of PGraphics. */
  datatype Primitive = PointCall | LineCall | TriangleCall | QuadCall | RectCall
                     | EllipseCall | ArcCall | BoxCall | SphereCall

  /** One call on the renderer. */
  datatype Cmd =
    | PushMatrix | PopMatrix | ApplyMatrix(matrix: Matrix)
    | PushStyle | PopStyle
    | Stroke(color: Int32) | StrokeWeight(weight: real) | StrokeCap(cap: int) | StrokeJoin(join: int) | NoStroke
    | Fill(color: Int32) | NoFill
    | BeginShape                       // beginShape()
    | BeginShapeKind(kind: int)        // beginShape(kind)
    | EndShape(mode: int)
    | Vertex(coords: seq<real>)        // vertex(x, y) or vertex(x, y, z)
    | VertexRow(row: Option<seq<real>>) // vertex(v: FloatArray?)
    | QuadraticVertex(coords: seq<real>)
    | BezierVertex(coords: seq<real>)
    | CurveVertex(coords: seq<real>)
    | BeginContour | EndContour
    | Draw(call: Primitive, args: seq<real>)
    | ArcWithMode(args: seq<real>, arcMode: Int32)  // arc(a, b, c, d, start, stop, mode)
    | DrawImage(image: Image, args: seq<real>)
    | SetImageMode(mode: int) | RestoreImageMode   // imageMode(m), then imageMode(oldMode)
    | SetRectMode(mode: int) | RestoreRectMode
    | SetEllipseMode(mode: int) | RestoreEllipseMode

  /** The calls made, and the exception that ended the drawing early, if any. */
  datatype Replay = Replay(events: seq<Cmd>, error: Option<Exception>)

  function Emit(events: seq<Cmd>): Replay { Replay(events, None) }

  /** The first replay, then the second unless the first threw. */
  function Then(first: Replay, second: Replay): (r: Replay)
    ensures first.error.Some? ==> r == first
    ensures first.error.None? ==> r.events == first.events + second.events && r.error == second.error
  {
    if first.error.Some? then first else Replay(first.events + second.events, second.error)
  }

  lemma ThenAssociative(a: Replay, b: Replay, c: Replay)
    ensures Then(Then(a, b), c) == Then(a, Then(b, c))
  {
    if a.error.None? && b.error.None? {
      assert a.events + b.events + c.events == a.events + (b.events + c.events);
    }
  }

  /** How many times `c` occurs in `s`. */
  function Count(s: seq<Cmd>, c: Cmd): nat
    decreases |s|
  {
    if s == [] then 0 else (if s[0] == c then 1 else 0) + Count(s[1..], c)
  }

  lemma {:induction false} CountAppend(a: seq<Cmd>, b: seq<Cmd>, c: Cmd)
    ensures Count(a + b, c) == Count(a, c) + Count(b, c)
    decreases |a|
  {
    if a == [] {
      assert a + b == b;
    } else {
      CountAppend(a[1..], b, c);
      assert (a + b)[1..] == a[1..] + b;
    }
  }

  /** A prefix of `s` holds at most as many of `c` as `s` does. */
  lemma CountPrefix(s: seq<Cmd>, k: nat, c: Cmd)
    requires k <= |s|
    ensures Count(s[..k], c) <= Count(s, c)
  {
    assert s == s[..k] + s[k..];
    CountAppend(s[..k], s[k..], c);
  }

  /** A prefix of `a + b` reaching into b counts all of a and a prefix of b. */
  lemma CountPrefixAppend(a: seq<Cmd>, b: seq<Cmd>, k: nat, c: Cmd)
    requires |a| <= k <= |a| + |b|
    ensures Count((a + b)[..k], c) == Count(a, c) + Count(b[..k - |a|], c)
  {
    assert (a + b)[..k] == a + b[..k - |a|];
    CountAppend(a, b[..k - |a|], c);
  }

  /**
   * Whether, for one stack, no prefix of `s` pops more than it has pushed:
   * every pop closes an earlier push. Without the final equality a push
   * may stay open at the end.
   */
  predicate NeverUnder(s: seq<Cmd>, push: Cmd, pop: Cmd) {
    forall k :: 0 <= k <= |s| ==> Count(s[..k], pop) <= Count(s[..k], push)
  }

  /** Whether every pop of the stack closes an earlier push and every push is closed by a later pop. */
  predicate Bracketed(s: seq<Cmd>, push: Cmd, pop: Cmd) {
    NeverUnder(s, push, pop) && Count(s, push) == Count(s, pop)
  }

  /** Whether both stacks, the matrix stack and the style stack, are bracketed. */
  predicate Balanced(s: seq<Cmd>) {
    Bracketed(s, PushMatrix, PopMatrix) && Bracketed(s, PushStyle, PopStyle)
  }

  lemma BracketedAppend(a: seq<Cmd>, b: seq<Cmd>, push: Cmd, pop: Cmd)
    requires Bracketed(a, push, pop) && Bracketed(b, push, pop)
    ensures Bracketed(a + b, push, pop)
  {
    CountAppend(a, b, push); CountAppend(a, b, pop);
    forall k | 0 <= k <= |a + b| ensures Count((a + b)[..k], pop) <= Count((a + b)[..k], push) {
      if k <= |a| {
        assert (a + b)[..k] == a[..k];
      } else {
        CountPrefixAppend(a, b, k, push); CountPrefixAppend(a, b, k, pop);
        assert Count(b[..k - |a|], pop) <= Count(b[..k - |a|], push);
      }
    }
  }

  lemma BalancedAppend(a: seq<Cmd>, b: seq<Cmd>)
    requires Balanced(a) && Balanced(b)
    ensures Balanced(a + b)
  {
    BracketedAppend(a, b, PushMatrix, PopMatrix);
    BracketedAppend(a, b, PushStyle, PopStyle);
  }

  /** A prefix of `pre + mid + post` that ends inside `pre` pops nothing. */
  lemma EnclosedPrefixPre(pre: seq<Cmd>, mid: seq<Cmd>, post: seq<Cmd>, pop: Cmd, k: nat)
    requires Count(pre, pop) == 0 && k <= |pre|
    ensures Count((pre + mid + post)[..k], pop) == 0
  {
    assert (pre + mid + post)[..k] == pre[..k];
    CountPrefix(pre, k, pop);
  }

  /** A prefix of `pre + mid + post` that ends inside `mid` stays bracketed. */
  lemma EnclosedPrefixMid(pre: seq<Cmd>, mid: seq<Cmd>, post: seq<Cmd>, push: Cmd, pop: Cmd, k: nat)
    requires Count(pre, pop) == 0 && NeverUnder(mid, push, pop)
    requires |pre| < k <= |pre| + |mid|
    ensures Count((pre + mid + post)[..k], pop) <= Count((pre + mid + post)[..k], push)
  {
    assert (pre + mid + post)[..k] == (pre + mid)[..k];
    CountPrefixAppend(pre, mid, k, push); CountPrefixAppend(pre, mid, k, pop);
    assert Count(mid[..k - |pre|], pop) <= Count(mid[..k - |pre|], push);
  }

  /** A prefix of `pre + mid + post` that ends inside `post` pops at most what was pushed. */
  lemma EnclosedPrefixPost(pre: seq<Cmd>, mid: seq<Cmd>, post: seq<Cmd>, push: Cmd, pop: Cmd, k: nat)
    requires Count(pre, pop) == 0 && Count(post, pop) == Count(pre, push)
    requires Count(mid, push) == Count(mid, pop)
    requires |pre| + |mid| < k <= |pre| + |mid| + |post|
    ensures Count((pre + mid + post)[..k], pop) <= Count((pre + mid + post)[..k], push)
  {
    CountAppend(pre, mid, push); CountAppend(pre, mid, pop);
    CountPrefixAppend(pre + mid, post, k, push); CountPrefixAppend(pre + mid, post, k, pop);
    CountPrefix(post, k - |pre + mid|, pop);
  }

  /**
   * Bracketed calls between opening calls that only push and closing calls
   * that only pop, as many as were pushed, are bracketed.
   */
  lemma BracketedEnclosed(pre: seq<Cmd>, mid: seq<Cmd>, post: seq<Cmd>, push: Cmd, pop: Cmd)
    requires Count(pre, pop) == 0 && Count(post, push) == 0 && Count(post, pop) == Count(pre, push)
    requires Bracketed(mid, push, pop)
    ensures Bracketed(pre + mid + post, push, pop)
  {
    var s := pre + mid + post;
    CountAppend(pre, mid, push); CountAppend(pre, mid, pop);
    CountAppend(pre + mid, post, push); CountAppend(pre + mid, post, pop);
    forall k | 0 <= k <= |s| ensures Count(s[..k], pop) <= Count(s[..k], push) {
      if k <= |pre| {
        EnclosedPrefixPre(pre, mid, post, pop, k);
      } else if k <= |pre| + |mid| {
        EnclosedPrefixMid(pre, mid, post, push, pop, k);
      } else {
        EnclosedPrefixPost(pre, mid, post, push, pop, k);
      }
    }
  }

  /** A pop before its push is not balanced, although the counts agree. */
  lemma PopFirstUnbalanced()
    ensures !Balanced([PopMatrix, PushMatrix])
  {
    var s := [PopMatrix, PushMatrix];
    assert s[..1] == [PopMatrix];
    assert Count([PopMatrix], PopMatrix) == 1;
    assert Count([PopMatrix], PushMatrix) == 0;
  }
}
