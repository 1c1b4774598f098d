/**
 * The shape hierarchy: each PShape's parent, its children array with the
 * count of slots in use, and the table of names registered at it. The
 * shapes live in an arena, `Forest`, and refer to one another by index;
 * a null slot of the children array is None. Walks over the hierarchy
 * are bounded by the number of shapes: a walk that needs more steps has
 * met a cycle, where the source recurses until the stack overflows.
 */
module Hierarchy {
  import opened Base
  import opened Constants
  import opened Render
  import opened Drawing
  import opened VertexStore
  import opened Shape

  /** The hierarchy fields of one shape: `parent`, `mchildren`, `childCount`, `nameTable`. */
  datatype Links = Links(parent: Option<nat>, children: Option<seq<Option<nat>>>, childCount: int,
                         nameTable: Option<map<string, nat>>)

  /** A new shape: no parent, no children array, no name table. */
  const Orphan := Links(None, None, 0, None)

  /** The message of contains() on a shape that is neither a GROUP nor a PATH. */
  const OnlyPaths := "The contains() method is only implemented for paths."

  /** The slots of the children array, none when there is no array. */
  function Slots(l: Links): seq<Option<nat>> {
    if l.children.None? then [] else l.children.value
  }

  /** The name table, empty when there is none. */
  function Table(l: Links): map<string, nat> {
    if l.nameTable.None? then map[] else l.nameTable.value
  }

  /**
   * What the operations keep: indices point into an arena of n shapes,
   * and the count in use is at most the array's size, zero without one.
   */
  predicate Within(l: Links, n: nat) {
    && (l.parent.Some? ==> l.parent.value < n)
    && Counted(l)
    && (forall k :: 0 <= k < |Slots(l)| && Slots(l)[k].Some? ==> Slots(l)[k].value < n)
    && (forall key :: key in Table(l) ==> Table(l)[key] < n)
  }

  /** The count in use fits the children array, and is zero without one. */
  predicate Counted(l: Links) {
    (l.children.None? ==> l.childCount == 0) && 0 <= l.childCount <= |Slots(l)|
  }

  predicate Linked(links: seq<Links>) {
    forall k :: 0 <= k < |links| ==> Within(links[k], |links|)
  }

  /** `mchildren!![i]!!`: the child in slot i, or the exception reading it raises. */
  function Slot(l: Links, i: int): (r: Result<nat>)
    ensures r.Ok? <==> l.children.Some? && 0 <= i < |l.children.value| && l.children.value[i].Some?
    ensures r.Ok? ==> l.children.value[i] == Some(r.value)
  {
    match l.children
    case None => Throws(NullPointer)
    case Some(slots) =>
      if i < 0 || i >= |slots| then Throws(IndexOutOfBounds)
      else if slots[i].None? then Throws(NullPointer)
      else Ok(slots[i].value)
  }

  lemma SlotWithin(l: Links, n: nat, i: int)
    requires Within(l, n) && Slot(l, i).Ok?
    ensures Slot(l, i).value < n
  {
    assert Slots(l)[i].Some?;
  }

  // ---------------------------------------------------------------------
  // addName() and findChild(): walking up

  /** The shape addName() registers at: the eldest ancestor, reached by following parents. */
  function Root(links: seq<Links>, at: nat, fuel: nat): (r: Result<nat>)
    requires Linked(links) && at < |links|
    ensures r.Ok? ==> r.value < |links| && links[r.value].parent.None?
    ensures r.Throws? ==> r.error == StackOverflow
    decreases fuel
  {
    if fuel == 0 then Throws(StackOverflow)
    else match links[at].parent
      case None => Ok(at)
      case Some(p) => Root(links, p, fuel - 1)
  }

  /** The shape after `nameTable[nom] = shape`, the table made on first use. */
  function Registered(l: Links, nom: string, shape: nat): Links {
    l.(nameTable := Some(Table(l)[nom := shape]))
  }

  /** addName(nom, shape) called on `at`: the arena afterwards and how the call ended. */
  function Named(links: seq<Links>, at: nat, nom: string, shape: nat): (seq<Links>, Outcome)
    requires Linked(links) && at < |links|
  {
    match Root(links, at, |links|)
    case Throws(e) => (links, Raised(e))
    case Ok(root) => (links[root := Registered(links[root], nom, shape)], Returned)
  }

  /** Changing anything but parents does not move the root. */
  lemma {:induction false} RootKeptByParents(links: seq<Links>, links': seq<Links>, at: nat, fuel: nat)
    requires Linked(links) && Linked(links') && |links'| == |links| && at < |links|
    requires forall k :: 0 <= k < |links| ==> links'[k].parent == links[k].parent
    ensures Root(links', at, fuel) == Root(links, at, fuel)
    decreases fuel
  {
    if fuel > 0 && links[at].parent.Some? {
      RootKeptByParents(links, links', links[at].parent.value, fuel - 1);
    }
  }

  lemma NamedWithin(links: seq<Links>, at: nat, nom: string, shape: nat)
    requires Linked(links) && at < |links| && shape < |links|
    ensures Linked(Named(links, at, nom, shape).0) && |Named(links, at, nom, shape).0| == |links|
  {
    var root := Root(links, at, |links|);
    if root.Ok? {
      var l := Registered(links[root.value], nom, shape);
      forall key | key in Table(l) ensures Table(l)[key] < |links| {
        if key != nom { assert key in Table(links[root.value]); }
      }
    }
  }

  /** findChild(target): the parents are followed up to the eldest, which runs getChild(target). */
  function Find(names: seq<Option<string>>, links: seq<Links>, at: nat, target: string, fuel: nat): Result<Option<nat>>
    requires Linked(links) && |names| == |links| && at < |links|
    decreases fuel
  {
    if fuel == 0 then Throws(StackOverflow)
    else match links[at].parent
      case None => Lookup(names, links, at, target, |links|)
      case Some(p) => Find(names, links, p, target, fuel - 1)
  }

  /** findChild() from any shape is getChild() at the shape addName() registers at. */
  lemma {:induction false} FindAtRoot(names: seq<Option<string>>, links: seq<Links>, at: nat, target: string, fuel: nat)
    requires Linked(links) && |names| == |links| && at < |links|
    ensures Find(names, links, at, target, fuel)
         == match Root(links, at, fuel)
            case Throws(e) => Throws(e)
            case Ok(root) => Lookup(names, links, root, target, |links|)
    decreases fuel
  {
    if fuel > 0 && links[at].parent.Some? {
      FindAtRoot(names, links, links[at].parent.value, target, fuel - 1);
    }
  }

  // ---------------------------------------------------------------------
  // getChild(String): walking down

  /** `name != null && name == target`. */
  predicate Carries(name: Option<string>, target: string) {
    name.Some? && name.value == target
  }

  /**
   * getChild(target) on `at`: itself when its name is target, else its own
   * table's entry, else the first match among its children in slot order.
   */
  function Lookup(names: seq<Option<string>>, links: seq<Links>, at: nat, target: string, fuel: nat): Result<Option<nat>>
    requires Linked(links) && |names| == |links| && at < |links|
    decreases fuel, 1
  {
    if fuel == 0 then Throws(StackOverflow)
    else if Carries(names[at], target) then Ok(Some(at))
    else if target in Table(links[at]) then Ok(Some(Table(links[at])[target]))
    else LookupFrom(names, links, at, 0, target, fuel)
  }

  /** The loop of getChild(target) over the children from slot i on. */
  function LookupFrom(names: seq<Option<string>>, links: seq<Links>, at: nat, i: nat, target: string, fuel: nat)
    : Result<Option<nat>>
    requires Linked(links) && |names| == |links| && at < |links| && fuel > 0
    decreases fuel, 0, links[at].childCount - i
  {
    if i >= links[at].childCount then Ok(None)
    else match Slot(links[at], i)
      case Throws(e) => Throws(e)
      case Ok(c) =>
        SlotWithin(links[at], |links|, i);
        match Lookup(names, links, c, target, fuel - 1)
        case Throws(e) => Throws(e)
        case Ok(found) => if found.Some? then Ok(found) else LookupFrom(names, links, at, i + 1, target, fuel)
  }

  /** Whether some shape's table holds n under `target`. */
  predicate Registers(links: seq<Links>, target: string, n: nat) {
    exists k :: 0 <= k < |links| && target in Table(links[k]) && Table(links[k])[target] == n
  }

  /** A shape getChild(target) finds is named target or is registered under target somewhere below. */
  lemma {:induction false} LookupSound(names: seq<Option<string>>, links: seq<Links>, at: nat, target: string, fuel: nat)
    requires Linked(links) && |names| == |links| && at < |links|
    requires Lookup(names, links, at, target, fuel).Ok? && Lookup(names, links, at, target, fuel).value.Some?
    ensures var n := Lookup(names, links, at, target, fuel).value.value;
      n < |links| && (Carries(names[n], target) || Registers(links, target, n))
    decreases fuel, 1
  {
    if !Carries(names[at], target) && target !in Table(links[at]) {
      LookupFromSound(names, links, at, 0, target, fuel);
    }
  }

  lemma {:induction false} LookupFromSound(names: seq<Option<string>>, links: seq<Links>, at: nat, i: nat, target: string, fuel: nat)
    requires Linked(links) && |names| == |links| && at < |links| && fuel > 0
    requires LookupFrom(names, links, at, i, target, fuel).Ok? && LookupFrom(names, links, at, i, target, fuel).value.Some?
    ensures var n := LookupFrom(names, links, at, i, target, fuel).value.value;
      n < |links| && (Carries(names[n], target) || Registers(links, target, n))
    decreases fuel, 0, links[at].childCount - i
  {
    var c := Slot(links[at], i).value;
    SlotWithin(links[at], |links|, i);
    var found := Lookup(names, links, c, target, fuel - 1);
    if found.value.Some? {
      LookupSound(names, links, c, target, fuel - 1);
    } else {
      LookupFromSound(names, links, at, i + 1, target, fuel);
    }
  }

  /** What getChild(target) answers at shape n before looking at its children: itself, or its table's entry. */
  function HitAt(names: seq<Option<string>>, links: seq<Links>, n: nat, target: string): Option<nat> {
    if n >= |names| || n >= |links| then None
    else if Carries(names[n], target) then Some(n)
    else if target in Table(links[n]) then Some(Table(links[n])[target])
    else None
  }

  /** The first answer along a depth-first walk, none when no shape on it answers. */
  function FirstHit(names: seq<Option<string>>, links: seq<Links>, walk: seq<nat>, target: string): Option<nat>
    decreases |walk|
  {
    if walk == [] then None
    else if HitAt(names, links, walk[0], target).Some? then HitAt(names, links, walk[0], target)
    else FirstHit(names, links, walk[1..], target)
  }

  /**
   * The first answer is none exactly when no shape on the walk answers,
   * and otherwise the answer of some shape all of whose predecessors on
   * the walk do not.
   */
  lemma {:induction false} FirstHitSpec(names: seq<Option<string>>, links: seq<Links>, walk: seq<nat>, target: string)
    ensures FirstHit(names, links, walk, target).None?
        <==> forall k :: 0 <= k < |walk| ==> HitAt(names, links, walk[k], target).None?
    ensures FirstHit(names, links, walk, target).Some? ==>
      exists k :: 0 <= k < |walk| && FirstHit(names, links, walk, target) == HitAt(names, links, walk[k], target)
        && forall j :: 0 <= j < k ==> HitAt(names, links, walk[j], target).None?
    decreases |walk|
  {
    if walk != [] && HitAt(names, links, walk[0], target).None? {
      var rest := walk[1..];
      FirstHitSpec(names, links, rest, target);
      assert forall k :: 1 <= k < |walk| ==> walk[k] == rest[k - 1];
      if FirstHit(names, links, rest, target).Some? {
        var k :| 0 <= k < |rest| && FirstHit(names, links, rest, target) == HitAt(names, links, rest[k], target)
          && forall j :: 0 <= j < k ==> HitAt(names, links, rest[j], target).None?;
        assert FirstHit(names, links, walk, target) == HitAt(names, links, walk[k + 1], target);
        assert forall j :: 0 <= j < k + 1 ==> HitAt(names, links, walk[j], target).None? by {
          forall j | 0 <= j < k + 1 ensures HitAt(names, links, walk[j], target).None? {
            if j > 0 { assert walk[j] == rest[j - 1]; }
          }
        }
      }
    }
  }

  lemma {:induction false} FirstHitAppend(names: seq<Option<string>>, links: seq<Links>, a: seq<nat>, b: seq<nat>, target: string)
    ensures FirstHit(names, links, a + b, target)
         == if FirstHit(names, links, a, target).Some? then FirstHit(names, links, a, target) else FirstHit(names, links, b, target)
    decreases |a|
  {
    if a == [] {
      assert a + b == b;
    } else {
      assert (a + b)[0] == a[0] && (a + b)[1..] == a[1..] + b;
      FirstHitAppend(names, links, a[1..], b, target);
    }
  }

  /**
   * When the walk over every shape below `at` ends normally, getChild(target)
   * answers with the first shape in depth-first order, children in slot
   * order, that is named target or whose table holds target (its own name
   * checked before its table), and with null when there is none.
   */
  lemma {:induction false} LookupFirstHit(names: seq<Option<string>>, links: seq<Links>, at: nat, target: string, fuel: nat)
    requires Linked(links) && |names| == |links| && at < |links|
    requires Reach(links, at, fuel).1.None?
    ensures Lookup(names, links, at, target, fuel) == Ok(FirstHit(names, links, Reach(links, at, fuel).0, target))
    decreases fuel, 1
  {
    var walk := Reach(links, at, fuel).0;
    var rest := ReachFrom(links, at, 0, fuel);
    assert walk == [at] + rest.0 && walk[0] == at && walk[1..] == rest.0;
    if HitAt(names, links, at, target).None? {
      LookupFromFirstHit(names, links, at, 0, target, fuel);
    }
  }

  lemma {:induction false} LookupFromFirstHit(names: seq<Option<string>>, links: seq<Links>, at: nat, i: nat, target: string, fuel: nat)
    requires Linked(links) && |names| == |links| && at < |links| && fuel > 0
    requires ReachFrom(links, at, i, fuel).1.None?
    ensures LookupFrom(names, links, at, i, target, fuel) == Ok(FirstHit(names, links, ReachFrom(links, at, i, fuel).0, target))
    decreases fuel, 0, links[at].childCount - i
  {
    if i < links[at].childCount {
      var c := Slot(links[at], i).value;
      SlotWithin(links[at], |links|, i);
      var head := Reach(links, c, fuel - 1);
      var tail := ReachFrom(links, at, i + 1, fuel);
      assert head.1.None? && ReachFrom(links, at, i, fuel) == (head.0 + tail.0, tail.1);
      LookupFirstHit(names, links, c, target, fuel - 1);
      FirstHitAppend(names, links, head.0, tail.0, target);
      if FirstHit(names, links, head.0, target).None? {
        LookupFromFirstHit(names, links, at, i + 1, target, fuel);
      }
    }
  }

  lemma LookupFacts(names: seq<Option<string>>, links: seq<Links>, at: nat, target: string, fuel: nat)
    requires Linked(links) && |names| == |links| && at < |links|
    ensures var r := Lookup(names, links, at, target, fuel);
      && (r.Ok? && r.value.Some? ==> r.value.value < |links| && (Carries(names[r.value.value], target) || Registers(links, target, r.value.value)))
      && (Reach(links, at, fuel).1.None? ==> r == Ok(FirstHit(names, links, Reach(links, at, fuel).0, target)))
  {
    var r := Lookup(names, links, at, target, fuel);
    if r.Ok? && r.value.Some? {
      LookupSound(names, links, at, target, fuel);
    }
    if Reach(links, at, fuel).1.None? {
      LookupFirstHit(names, links, at, target, fuel);
    }
  }

  /**
   * When the walk below `at` ends normally, getChild(target) is null exactly
   * when no shape on it is named target and no table on it holds target.
   */
  lemma LookupNullExactly(names: seq<Option<string>>, links: seq<Links>, at: nat, target: string, fuel: nat)
    requires Linked(links) && |names| == |links| && at < |links|
    requires Reach(links, at, fuel).1.None?
    ensures var walk := Reach(links, at, fuel).0;
      (Lookup(names, links, at, target, fuel) == Ok(None) <==>
         forall k :: 0 <= k < |walk| ==>
                walk[k] < |links| && !Carries(names[walk[k]], target) && target !in Table(links[walk[k]]))
  {
    var walk := Reach(links, at, fuel).0;
    ReachCloses(links, at, fuel);
    LookupFirstHit(names, links, at, target, fuel);
    FirstHitSpec(names, links, walk, target);
    assert forall k :: 0 <= k < |walk| ==>
      (HitAt(names, links, walk[k], target).None? <==>
         walk[k] < |links| && !Carries(names[walk[k]], target) && target !in Table(links[walk[k]]));
  }

  /**
   * The name addName() registers is found by findChild() from the shape
   * it was added at, unless the root's own name is the same.
   */
  lemma FindsNamed(names: seq<Option<string>>, links: seq<Links>, at: nat, nom: string, shape: nat)
    requires Linked(links) && |names| == |links| && at < |links| && shape < |links|
    requires Root(links, at, |links|).Ok? && !Carries(names[Root(links, at, |links|).value], nom)
    ensures Find(names, Named(links, at, nom, shape).0, at, nom, |links|) == Ok(Some(shape))
  {
    var links' := Named(links, at, nom, shape).0;
    NamedWithin(links, at, nom, shape);
    RootKeptByParents(links, links', at, |links|);
    FindAtRoot(names, links', at, nom, |links|);
  }

  // ---------------------------------------------------------------------
  // The children array

  /**
   * The loop `for (i in childCount - 1 downTo lo) mchildren[i + 1] = mchildren[i]`
   * having run down to lo: slots lo+1 .. c hold what lo .. c-1 held.
   */
  function ShiftedUp(s: seq<Option<nat>>, lo: int, c: int): (r: seq<Option<nat>>)
    requires 0 <= lo && c < |s|
    ensures |r| == |s|
  {
    seq(|s|, k requires 0 <= k < |s| => if lo < k <= c then s[k - 1] else s[k])
  }

  /**
   * The loop `for (i in lo until c - 1) mchildren[i] = mchildren[i + 1]`:
   * slots lo .. c-2 hold what lo+1 .. c-1 held.
   */
  function ShiftedDown(s: seq<Option<nat>>, lo: int, c: int): (r: seq<Option<nat>>)
    requires c <= |s|
    ensures |r| == |s|
  {
    seq(|s|, k requires 0 <= k < |s| => if lo <= k < c - 1 then s[k + 1] else s[k])
  }

  /** The children array addChild() writes into: made with one slot, doubled when full. */
  function Room(l: Links): (r: seq<Option<nat>>)
    ensures Counted(l) ==> l.childCount < |r|
  {
    var slots := if l.children.None? then [None] else l.children.value;
    if l.childCount == |slots| then Grown(slots, None) else slots
  }

  lemma RoomFits(l: Links, n: nat)
    requires Within(l, n)
    ensures l.childCount < |Room(l)| && Room(l)[..l.childCount] == Slots(l)[..l.childCount]
    ensures forall k :: 0 <= k < |Room(l)| && Room(l)[k].Some? ==> Room(l)[k].value < n
  {
    var slots := if l.children.None? then [None] else l.children.value;
    assert forall k :: 0 <= k < |slots| && slots[k].Some? ==> slots[k].value < n;
  }

  /** After addChild(who, idx), idx in use: who at idx, the others in their old order. */
  lemma InsertKeepsOrder(s: seq<Option<nat>>, idx: int, c: int, who: Option<nat>)
    requires 0 <= idx < c < |s|
    ensures ShiftedUp(s, idx, c)[idx := who][..c + 1] == s[..idx] + [who] + s[idx..c]
  {
    var r := ShiftedUp(s, idx, c)[idx := who];
    var e := s[..idx] + [who] + s[idx..c];
    assert |r[..c + 1]| == |e|;
    forall k | 0 <= k <= c ensures r[k] == e[k] {
      if k < idx { assert e[k] == s[k]; } else if k > idx { assert e[k] == s[idx..c][k - idx - 1]; }
    }
  }

  /** After removeChild(idx): the others in their old order. */
  lemma RemoveKeepsOrder(s: seq<Option<nat>>, idx: int, c: int)
    requires 0 <= idx < c <= |s|
    ensures ShiftedDown(s, idx, c)[..c - 1] == s[..idx] + s[idx + 1..c]
  {
    var r := ShiftedDown(s, idx, c);
    var e := s[..idx] + s[idx + 1..c];
    assert |r[..c - 1]| == |e|;
    forall k | 0 <= k < c - 1 ensures r[k] == e[k] {
      if k < idx { assert e[k] == s[k]; } else { assert e[k] == s[idx + 1..c][k - idx]; }
    }
  }

  lemma ShiftedUpWithin(s: seq<Option<nat>>, n: nat, lo: nat, c: int)
    requires c < |s| && forall k :: 0 <= k < |s| && s[k].Some? ==> s[k].value < n
    ensures var u := ShiftedUp(s, lo, c); forall k :: 0 <= k < |u| && u[k].Some? ==> u[k].value < n
  {
    var u := ShiftedUp(s, lo, c);
    forall k | 0 <= k < |u| && u[k].Some? ensures u[k].value < n {
      if lo < k <= c { assert u[k] == s[k - 1]; } else { assert u[k] == s[k]; }
    }
  }

  lemma ShiftedDownWithin(s: seq<Option<nat>>, n: nat, lo: nat, c: int)
    requires c <= |s| && forall k :: 0 <= k < |s| && s[k].Some? ==> s[k].value < n
    ensures var d := ShiftedDown(s, lo, c); forall k :: 0 <= k < |d| && d[k].Some? ==> d[k].value < n
  {
    var d := ShiftedDown(s, lo, c);
    forall k | 0 <= k < |d| && d[k].Some? ensures d[k].value < n {
      if lo <= k < c - 1 { assert d[k] == s[k + 1]; } else { assert d[k] == s[k]; }
    }
  }

  /** The children fields after `mchildren!![childCount++] = who` into the room addChild() makes. */
  function Appended(l: Links, who: Option<nat>): Links
    requires Counted(l)
  {
    l.(children := Some(Room(l)[l.childCount := who]), childCount := l.childCount + 1)
  }

  /** The children fields after addChild(who, idx) has shifted the slots and stored `who`. */
  function Inserted(l: Links, idx: nat, who: nat): Links
    requires Counted(l) && idx < l.childCount
  {
    l.(children := Some(ShiftedUp(Room(l), idx, l.childCount)[idx := Some(who)]), childCount := l.childCount + 1)
  }

  /** The children fields after removeChild(idx) has shifted the slots down. */
  function Removed(l: Links, idx: nat): Links
    requires idx < l.childCount <= |Slots(l)|
  {
    l.(children := Some(ShiftedDown(Slots(l), idx, l.childCount)), childCount := l.childCount - 1)
  }

  /** `who.parent = this`. */
  function Adopted(links: seq<Links>, who: nat, at: nat): seq<Links>
    requires who < |links|
  {
    links[who := links[who].(parent := Some(at))]
  }

  lemma Relinked(links: seq<Links>, at: nat, l: Links)
    requires Linked(links) && at < |links| && Within(l, |links|)
    ensures Linked(links[at := l])
  {
  }

  lemma AppendedWithin(l: Links, n: nat, who: Option<nat>)
    requires Within(l, n) && (who.Some? ==> who.value < n)
    ensures Within(Appended(l, who), n)
  {
    RoomFits(l, n);
    var a := Appended(l, who);
    assert Slots(a) == Room(l)[l.childCount := who];
    assert Table(a) == Table(l);
  }

  lemma InsertedWithin(l: Links, n: nat, idx: nat, who: nat)
    requires Within(l, n) && idx < l.childCount && who < n
    ensures Within(Inserted(l, idx, who), n)
  {
    RoomFits(l, n);
    ShiftedUpWithin(Room(l), n, idx, l.childCount);
    var a := Inserted(l, idx, who);
    assert Slots(a) == ShiftedUp(Room(l), idx, l.childCount)[idx := Some(who)];
    assert Table(a) == Table(l);
  }

  lemma RemovedWithin(l: Links, n: nat, idx: nat)
    requires Within(l, n) && idx < l.childCount
    ensures Within(Removed(l, idx), n)
  {
    ShiftedDownWithin(Slots(l), n, idx, l.childCount);
    assert Table(Removed(l, idx)) == Table(l);
  }

  lemma AdoptedLinked(links: seq<Links>, who: nat, at: nat)
    requires Linked(links) && who < |links| && at < |links|
    ensures Linked(Adopted(links, who, at))
  {
    var l := links[who].(parent := Some(at));
    assert Slots(l) == Slots(links[who]) && Table(l) == Table(links[who]);
    Relinked(links, who, l);
  }

  // ---------------------------------------------------------------------
  // enableStyle() and disableStyle()

  /**
   * The shapes enableStyle()/disableStyle() on `at` set, in order, and the
   * exception that stops the walk: `at` first, then each child's walk.
   */
  function Reach(links: seq<Links>, at: nat, fuel: nat): (seq<nat>, Option<Exception>)
    requires Linked(links) && at < |links|
    decreases fuel, 1
  {
    if fuel == 0 then ([], Some(StackOverflow))
    else var rest := ReachFrom(links, at, 0, fuel); ([at] + rest.0, rest.1)
  }

  /** The loop of enableStyle()/disableStyle() over the children from slot i on. */
  function ReachFrom(links: seq<Links>, at: nat, i: nat, fuel: nat): (seq<nat>, Option<Exception>)
    requires Linked(links) && at < |links| && fuel > 0
    decreases fuel, 0, links[at].childCount - i
  {
    if i >= links[at].childCount then ([], None)
    else match Slot(links[at], i)
      case Throws(e) => ([], Some(e))
      case Ok(c) =>
        SlotWithin(links[at], |links|, i);
        var head := Reach(links, c, fuel - 1);
        if head.1.Some? then head
        else var tail := ReachFrom(links, at, i + 1, fuel); (head.0 + tail.0, tail.1)
  }

  /** Every child in use of a shape in the set (as `k`) is in the set too. */
  predicate Closed(links: seq<Links>, reached: seq<nat>) {
    forall k :: 0 <= k < |reached| && reached[k] < |links| ==> ChildrenIn(links[reached[k]], reached)
  }

  predicate ChildrenIn(l: Links, reached: seq<nat>) {
    forall i :: 0 <= i < l.childCount ==> Slot(l, i).Ok? && Slot(l, i).value in reached
  }

  /** A walk that ends normally sets `at`, and with every shape it sets, that shape's children. */
  lemma {:induction false} ReachCloses(links: seq<Links>, at: nat, fuel: nat)
    requires Linked(links) && at < |links| && Reach(links, at, fuel).1.None?
    ensures var r := Reach(links, at, fuel).0; at in r && Closed(links, r) && forall k :: 0 <= k < |r| ==> r[k] < |links|
    decreases fuel, 1
  {
    var rest := ReachFrom(links, at, 0, fuel);
    ReachFromCloses(links, at, 0, fuel);
    var r := [at] + rest.0;
    forall k | 0 <= k < |r| && r[k] < |links| ensures ChildrenIn(links[r[k]], r) {
      if k == 0 {
        forall i | 0 <= i < links[at].childCount ensures Slot(links[at], i).Ok? && Slot(links[at], i).value in r {
          assert Slot(links[at], i).value in rest.0;
        }
      } else {
        assert r[k] == rest.0[k - 1];
        var l := links[r[k]];
        forall i | 0 <= i < l.childCount ensures Slot(l, i).Ok? && Slot(l, i).value in r {
          assert ChildrenIn(l, rest.0);
          assert Slot(l, i).value in rest.0;
        }
      }
    }
  }

  lemma {:induction false} ReachFromCloses(links: seq<Links>, at: nat, i: nat, fuel: nat)
    requires Linked(links) && at < |links| && fuel > 0 && ReachFrom(links, at, i, fuel).1.None?
    ensures var r := ReachFrom(links, at, i, fuel).0;
      && Closed(links, r) && (forall k :: 0 <= k < |r| ==> r[k] < |links|)
      && forall j :: i <= j < links[at].childCount ==> Slot(links[at], j).Ok? && Slot(links[at], j).value in r
    decreases fuel, 0, links[at].childCount - i
  {
    if i < links[at].childCount {
      var c := Slot(links[at], i).value;
      SlotWithin(links[at], |links|, i);
      var head := Reach(links, c, fuel - 1);
      var tail := ReachFrom(links, at, i + 1, fuel);
      ReachCloses(links, c, fuel - 1);
      ReachFromCloses(links, at, i + 1, fuel);
      var r := head.0 + tail.0;
      forall k | 0 <= k < |r| && r[k] < |links| ensures ChildrenIn(links[r[k]], r) {
        var l := links[r[k]];
        if k < |head.0| {
          assert ChildrenIn(l, head.0);
        } else {
          assert r[k] == tail.0[k - |head.0|];
          assert ChildrenIn(l, tail.0);
        }
        forall j | 0 <= j < l.childCount ensures Slot(l, j).Ok? && Slot(l, j).value in r {
          assert Slot(l, j).value in head.0 || Slot(l, j).value in tail.0;
        }
      }
      forall j | i <= j < links[at].childCount ensures Slot(links[at], j).Ok? && Slot(links[at], j).value in r {
        if j == i { assert c in head.0; } else { assert Slot(links[at], j).value in tail.0; }
      }
    }
  }

  // ---------------------------------------------------------------------
  // contains(x, y): the dispatch on the family

  /**
   * contains(x, y) on `at`: a PATH answers by its own point test `hit`, a
   * GROUP asks its children in slot order until one answers true, and any
   * other family throws.
   */
  function Contains(families: seq<int>, links: seq<Links>, at: nat, hit: nat -> Result<bool>, fuel: nat): Result<bool>
    requires Linked(links) && |families| == |links| && at < |links|
    decreases fuel, 1
  {
    if fuel == 0 then Throws(StackOverflow)
    else if families[at] == PATH then hit(at)
    else if families[at] == GROUP then ContainsFrom(families, links, at, 0, hit, fuel)
    else Throws(IllegalArgument(OnlyPaths))
  }

  /** The loop of contains() over a group's children from slot i on. */
  function ContainsFrom(families: seq<int>, links: seq<Links>, at: nat, i: nat, hit: nat -> Result<bool>, fuel: nat)
    : Result<bool>
    requires Linked(links) && |families| == |links| && at < |links| && fuel > 0
    decreases fuel, 0, links[at].childCount - i
  {
    if i >= links[at].childCount then Ok(false)
    else match Slot(links[at], i)
      case Throws(e) => Throws(e)
      case Ok(c) =>
        SlotWithin(links[at], |links|, i);
        match Contains(families, links, c, hit, fuel - 1)
        case Throws(e) => Throws(e)
        case Ok(b) => if b then Ok(true) else ContainsFrom(families, links, at, i + 1, hit, fuel)
  }

  /** The child in slot i answers contains() with b, one level further down than `fuel`. */
  predicate ChildAnswers(families: seq<int>, links: seq<Links>, at: nat, i: int, hit: nat -> Result<bool>, fuel: nat, b: bool)
    requires Linked(links) && |families| == |links| && at < |links| && fuel > 0
  {
    Slot(links[at], i).Ok? && Slot(links[at], i).value < |links|
    && Contains(families, links, Slot(links[at], i).value, hit, fuel - 1) == Ok(b)
  }

  /**
   * A group that answers contains() without throwing answers true exactly
   * when some child in use answers true.
   */
  lemma {:induction false} GroupContainsAny(families: seq<int>, links: seq<Links>, at: nat, i: nat, hit: nat -> Result<bool>, fuel: nat)
    requires Linked(links) && |families| == |links| && at < |links| && fuel > 0
    requires ContainsFrom(families, links, at, i, hit, fuel).Ok?
    ensures ContainsFrom(families, links, at, i, hit, fuel).value
        <==> exists j :: i <= j < links[at].childCount && ChildAnswers(families, links, at, j, hit, fuel, true)
    decreases links[at].childCount - i
  {
    if i < links[at].childCount {
      var c := Slot(links[at], i).value;
      SlotWithin(links[at], |links|, i);
      assert ChildAnswers(families, links, at, i, hit, fuel, Contains(families, links, c, hit, fuel - 1).value);
      if !Contains(families, links, c, hit, fuel - 1).value {
        GroupContainsAny(families, links, at, i + 1, hit, fuel);
        forall j | i <= j < links[at].childCount && ChildAnswers(families, links, at, j, hit, fuel, true)
          ensures j > i
        {
        }
      }
    }
  }

  // ---------------------------------------------------------------------
  // draw() of a group: the children drawn in slot order

  /**
   * draw() on `at` over a snapshot of every shape's drawing state, a GROUP
   * drawing its children in slot order.
   */
  function TreeTrace(datas: seq<ShapeData>, links: seq<Links>, at: nat, loader: string -> Option<Image>, fuel: nat): Replay
    requires Linked(links) && |datas| == |links| && at < |links|
    decreases fuel, 1
  {
    if fuel == 0 then Replay([], Some(StackOverflow))
    else
      var children := if datas[at].visible && datas[at].family == GROUP then GroupTrace(datas, links, at, 0, loader, fuel)
                      else Emit([]);
      NodeTrace(datas[at], loader, children)
  }

  /** drawGroup(): the draw() of each child from slot i on, stopping at the first exception. */
  function GroupTrace(datas: seq<ShapeData>, links: seq<Links>, at: nat, i: nat, loader: string -> Option<Image>, fuel: nat)
    : Replay
    requires Linked(links) && |datas| == |links| && at < |links| && fuel > 0
    decreases fuel, 0, links[at].childCount - i
  {
    if i >= links[at].childCount then Emit([])
    else match Slot(links[at], i)
      case Throws(e) => Replay([], Some(e))
      case Ok(c) =>
        SlotWithin(links[at], |links|, i);
        Then(TreeTrace(datas, links, c, loader, fuel - 1), GroupTrace(datas, links, at, i + 1, loader, fuel))
  }

  /** A whole tree's draw() that ends normally matches every push with a pop. */
  lemma {:induction false} TreeBalanced(datas: seq<ShapeData>, links: seq<Links>, at: nat, loader: string -> Option<Image>, fuel: nat)
    requires Linked(links) && |datas| == |links| && at < |links|
    requires TreeTrace(datas, links, at, loader, fuel).error.None?
    ensures Balanced(TreeTrace(datas, links, at, loader, fuel).events)
    decreases fuel, 1
  {
    var d := datas[at];
    if d.visible && d.family == GROUP {
      var children := GroupTrace(datas, links, at, 0, loader, fuel);
      assert children.error.None?;
      GroupBalanced(datas, links, at, 0, loader, fuel);
      NodeBalanced(d, loader, children);
    } else {
      FlatBalanced([]);
      NodeBalanced(d, loader, Emit([]));
    }
  }

  lemma {:induction false} GroupBalanced(datas: seq<ShapeData>, links: seq<Links>, at: nat, i: nat, loader: string -> Option<Image>, fuel: nat)
    requires Linked(links) && |datas| == |links| && at < |links| && fuel > 0
    requires GroupTrace(datas, links, at, i, loader, fuel).error.None?
    ensures Balanced(GroupTrace(datas, links, at, i, loader, fuel).events)
    decreases fuel, 0, links[at].childCount - i
  {
    if i >= links[at].childCount {
      assert GroupTrace(datas, links, at, i, loader, fuel).events == [];
      FlatBalanced([]);
    } else {
      var c := Slot(links[at], i).value;
      SlotWithin(links[at], |links|, i);
      var head := TreeTrace(datas, links, c, loader, fuel - 1);
      var tail := GroupTrace(datas, links, at, i + 1, loader, fuel);
      TreeBalanced(datas, links, c, loader, fuel - 1);
      GroupBalanced(datas, links, at, i + 1, loader, fuel);
      BalancedAppend(head.events, tail.events);
    }
  }

  // ---------------------------------------------------------------------
  // The arena

  /** The names of the shapes, in arena order. */
  function NamesOf(ns: seq<PShape>): (r: seq<Option<string>>)
    reads ns
    ensures |r| == |ns| && forall k :: 0 <= k < |ns| ==> r[k] == ns[k].name
  {
    if ns == [] then [] else [ns[0].name] + NamesOf(ns[1..])
  }

  /** The families of the shapes, in arena order. */
  function FamiliesOf(ns: seq<PShape>): (r: seq<int>)
    reads ns
    ensures |r| == |ns| && forall k :: 0 <= k < |ns| ==> r[k] == ns[k].family
  {
    if ns == [] then [] else [ns[0].family] + FamiliesOf(ns[1..])
  }

  /**
   * The arena `after` and outcome `r` that `who.parent = at` and, for a
   * named `who`, addName() on `at` leave from `before`.
   */
  predicate Joined(before: seq<Links>, who: nat, at: nat, names: seq<Option<string>>, after: seq<Links>, r: Outcome) {
    && Linked(before) && who < |before| && at < |before| && |names| == |before|
    && (AdoptedLinked(before, who, at);
        var adopted := Adopted(before, who, at);
        if names[who].None? then after == adopted && r == Returned
        else (after, r) == Named(adopted, at, names[who].value, who))
  }

  /** The shapes of a hierarchy and the hierarchy fields of each, the k-th links belonging to the k-th shape. */
  class Forest {
    var nodes: seq<PShape>
    var links: seq<Links>

    predicate Valid()
      reads this`nodes, this`links
    {
      && |nodes| == |links| && Linked(links)
      && forall i, j :: 0 <= i < j < |nodes| ==> nodes[i] != nodes[j]
    }

    function Names(): seq<Option<string>>
      reads this`nodes, nodes
    {
      NamesOf(nodes)
    }

    constructor ()
      ensures Valid() && nodes == [] && links == []
    {
      nodes, links := [], [];
    }

    /** A shape joins the arena as a new shape does: no parent, no children, no table. */
    method Adopt(s: PShape) returns (n: nat)
      requires Valid() && s !in nodes
      modifies this`nodes, this`links
      ensures Valid() && n == |old(nodes)|
      ensures nodes == old(nodes) + [s] && links == old(links) + [Orphan]
    {
      n := |nodes|;
      nodes, links := nodes + [s], links + [Orphan];
    }

    /** addName(nom, shape) on `at`: the entry goes into the table of the eldest ancestor. */
    method AddName(at: nat, nom: string, shape: nat) returns (r: Outcome)
      requires Valid() && at < |links| && shape < |links|
      modifies this`links
      ensures Valid()
      ensures (links, r) == Named(old(links), at, nom, shape)
    {
      NamedWithin(links, at, nom, shape);
      var root := Root(links, at, |links|);
      if root.Throws? {
        return Raised(root.error);
      }
      links := links[root.value := Registered(links[root.value], nom, shape)];
      r := Returned;
    }

    /**
     * addChild(who): `who` goes into the first free slot of a children
     * array grown when full, its parent becomes `at`, and a named `who` is
     * registered through addName(). A null `who` is stored and counted
     * before the exception.
     */
    method AddChild(at: nat, who: Option<nat>) returns (r: Outcome)
      requires Valid() && at < |links| && (who.Some? ==> who.value < |links|)
      modifies this`links
      ensures Valid()
      ensures var stored := old(links)[at := Appended(old(links)[at], who)];
        if who.None? then links == stored && r == Raised(NullPointer)
        else Joined(stored, who.value, at, Names(), links, r)
    {
      AppendedWithin(links[at], |links|, who);
      Relinked(links, at, Appended(links[at], who));
      links := links[at := Appended(links[at], who)];
      if who.None? {
        return Raised(NullPointer);
      }
      r := Register(at, who.value);
    }

    /**
     * The end of both addChild() overloads: `who.parent = this`, then
     * addName() when `who` has a name.
     */
    method Register(at: nat, who: nat) returns (r: Outcome)
      requires Valid() && at < |links| && who < |links|
      modifies this`links
      ensures Valid()
      ensures Joined(old(links), who, at, Names(), links, r)
    {
      AdoptedLinked(links, who, at);
      links := Adopted(links, who, at);
      var nom := nodes[who].name;
      assert nom == Names()[who];
      if nom.None? {
        return Returned;
      }
      r := AddName(at, nom.value, who);
    }

    /**
     * addChild(who, idx): when idx is below the count in use, the slots
     * from idx up move one place up (the array grown when full), `who` goes
     * into slot idx, and the rest is as for addChild(who). A negative idx
     * moves every slot in use up and then reads slot -1.
     */
    method AddChildAt(at: nat, who: nat, idx: int) returns (r: Outcome)
      requires Valid() && at < |links| && who < |links|
      modifies this`links
      ensures Valid()
      ensures var l := old(links)[at];
        if idx >= l.childCount then links == old(links) && r == Returned
        else if l.children.None? then links == old(links) && r == Raised(NullPointer)
        else if idx < 0 then
          links == old(links)[at := l.(children := Some(ShiftedUp(Room(l), 0, l.childCount)))]
          && r == Raised(IndexOutOfBounds)
        else Joined(old(links)[at := Inserted(l, idx, who)], who, at, Names(), links, r)
    {
      var l := links[at];
      if idx >= l.childCount {
        return Returned;
      }
      if l.children.None? {
        return Raised(NullPointer);
      }
      var slots := ShiftUp(Room(l), idx, l.childCount);
      if idx < 0 {
        RoomFits(l, |links|);
        ShiftedUpWithin(Room(l), |links|, 0, l.childCount);
        assert Table(l.(children := Some(slots))) == Table(l);
        Relinked(links, at, l.(children := Some(slots)));
        links := links[at := l.(children := Some(slots))];
        return Raised(IndexOutOfBounds);
      }
      InsertedWithin(l, |links|, idx, who);
      Relinked(links, at, Inserted(l, idx, who));
      links := links[at := l.(children := Some(slots[idx := Some(who)]), childCount := l.childCount + 1)];
      r := Register(at, who);
    }

    /**
     * The loop `for (i in c - 1 downTo idx) mchildren!![i + 1] = mchildren!![i]`
     * on a copy of the array, stopped at the read of slot -1 for a negative idx.
     */
    static method ShiftUp(s: seq<Option<nat>>, idx: int, c: int) returns (slots: seq<Option<nat>>)
      requires idx < c < |s| && 0 <= c
      ensures slots == ShiftedUp(s, if idx < 0 then 0 else idx, c)
    {
      slots := s;
      var i := c - 1;
      while i >= idx
        invariant idx - 1 <= i <= c - 1 && i >= -1
        invariant slots == ShiftedUp(s, i + 1, c)
      {
        if i < 0 {
          return;
        }
        slots := slots[i + 1 := slots[i]];
        i := i - 1;
      }
    }

    /**
     * removeChild(idx): when idx is below the count in use, the later slots
     * move one place down and the count drops; the removed child keeps its
     * parent, and its name leaves this shape's own table only. Below the
     * count with no children array (a negative idx on a shape that never had
     * children), `mchildren!!` throws before any slot is read.
     */
    method RemoveChild(at: nat, idx: int) returns (r: Outcome)
      requires Valid() && at < |links|
      modifies this`links
      ensures Valid()
      ensures var l := old(links)[at];
        if idx >= l.childCount then links == old(links) && r == Returned
        else if l.children.None? then links == old(links) && r == Raised(NullPointer)
        else if idx < 0 then links == old(links) && r == Raised(IndexOutOfBounds)
        else
          var child := Slots(l)[idx];
          var moved := Removed(l, idx);
          if child.None? then links == old(links)[at := moved] && r == Raised(NullPointer)
          else if Names()[child.value].Some? && l.nameTable.Some? then
            links == old(links)[at := moved.(nameTable := Some(Table(l) - {Names()[child.value].value}))] && r == Returned
          else links == old(links)[at := moved] && r == Returned
    {
      var l := links[at];
      if idx >= l.childCount {
        return Returned;
      }
      if l.children.None? {
        return Raised(NullPointer);
      }
      if idx < 0 {
        return Raised(IndexOutOfBounds);
      }
      var child := l.children.value[idx];
      var slots := ShiftDown(l.children.value, idx, l.childCount);
      RemovedWithin(l, |links|, idx);
      var moved := l.(children := Some(slots), childCount := l.childCount - 1);
      assert moved == Removed(l, idx);
      if child.None? {
        Relinked(links, at, moved);
        links := links[at := moved];
        return Raised(NullPointer);
      }
      var nom := nodes[child.value].name;
      assert Slots(l)[idx].Some?;
      assert nom == Names()[child.value];
      if nom.Some? && l.nameTable.Some? {
        var pruned := moved.(nameTable := Some(l.nameTable.value - {nom.value}));
        assert forall key :: key in Table(pruned) ==> key in Table(l);
        Relinked(links, at, pruned);
        links := links[at := pruned];
      } else {
        Relinked(links, at, moved);
        links := links[at := moved];
      }
      r := Returned;
    }

    /** The loop `for (i in idx until c - 1) mchildren!![i] = mchildren!![i + 1]` on a copy of the array. */
    static method ShiftDown(s: seq<Option<nat>>, idx: nat, c: int) returns (slots: seq<Option<nat>>)
      requires idx < c <= |s|
      ensures slots == ShiftedDown(s, idx, c)
    {
      slots := s;
      var i := idx;
      while i < c - 1
        invariant idx <= i <= c - 1
        invariant slots == ShiftedDown(s, idx, i + 1)
      {
        slots := slots[i := slots[i + 1]];
        i := i + 1;
      }
    }

    /** getChildIndex(who): the first slot in use holding `who`, or -1. */
    method GetChildIndex(at: nat, who: nat) returns (i: int)
      requires Valid() && at < |links|
      ensures var l := links[at];
        && (i == -1 <==> forall k :: 0 <= k < l.childCount ==> Slots(l)[k] != Some(who))
        && (i != -1 ==> 0 <= i < l.childCount && Slots(l)[i] == Some(who)
                        && forall k :: 0 <= k < i ==> Slots(l)[k] != Some(who))
    {
      var l := links[at];
      var k := 0;
      while k < l.childCount
        invariant 0 <= k <= l.childCount
        invariant forall j :: 0 <= j < k ==> Slots(l)[j] != Some(who)
      {
        if l.children.value[k] == Some(who) {
          return k;
        }
        k := k + 1;
      }
      i := -1;
    }

    /** crop(): a children array larger than the count in use is cut to it; without an array it throws. */
    method Crop(at: nat) returns (r: Outcome)
      requires Valid() && at < |links|
      modifies this`links
      ensures Valid()
      ensures var l := old(links)[at];
        if l.children.None? then links == old(links) && r == Raised(NullPointer)
        else links == old(links)[at := l.(children := Some(l.children.value[..l.childCount]))] && r == Returned
    {
      var l := links[at];
      if l.children.None? {
        return Raised(NullPointer);
      }
      if |l.children.value| != l.childCount {
        var cut := l.(children := Some(l.children.value[..l.childCount]));
        assert Table(cut) == Table(l);
        assert forall k :: 0 <= k < |Slots(cut)| ==> Slots(cut)[k] == Slots(l)[k];
        Relinked(links, at, cut);
        links := links[at := cut];
      } else {
        assert l.children.value[..l.childCount] == l.children.value;
        assert l.(children := Some(l.children.value[..l.childCount])) == l;
        assert links[at := l] == links;
      }
      r := Returned;
    }

    /** getChildren(): crop(), then the array, exactly the children in use. */
    method GetChildren(at: nat) returns (r: Result<seq<Option<nat>>>)
      requires Valid() && at < |links|
      modifies this`links
      ensures Valid()
      ensures var l := old(links)[at];
        if l.children.None? then r == Throws(NullPointer)
        else r == Ok(Slots(l)[..l.childCount]) && |r.value| == links[at].childCount
    {
      var cropped := Crop(at);
      if cropped.Raised? {
        return Throws(cropped.error);
      }
      r := Ok(links[at].children.value);
    }

    /** getChild(index): crop(), then the slot, null or a child; an index outside the children in use throws. */
    method GetChildAt(at: nat, index: int) returns (r: Result<Option<nat>>)
      requires Valid() && at < |links|
      modifies this`links
      ensures Valid()
      ensures var l := old(links)[at];
        if l.children.None? then r == Throws(NullPointer)
        else if index < 0 || index >= l.childCount then r == Throws(IndexOutOfBounds)
        else r == Ok(Slots(l)[index])
    {
      var cropped := Crop(at);
      if cropped.Raised? {
        return Throws(cropped.error);
      }
      var slots := links[at].children.value;
      if index < 0 || index >= |slots| {
        return Throws(IndexOutOfBounds);
      }
      r := Ok(slots[index]);
    }

    /** getChild(target) on `at`. */
    function GetChild(at: nat, target: string): (r: Result<Option<nat>>)
      requires Valid() && at < |links|
      reads this`nodes, this`links, nodes
      ensures Carries(Names()[at], target) ==> r == Ok(Some(at))
      ensures !Carries(Names()[at], target) && target in Table(links[at]) ==> r == Ok(Some(Table(links[at])[target]))
      ensures r.Ok? && r.value.Some? ==>
                r.value.value < |links| && (Carries(Names()[r.value.value], target) || Registers(links, target, r.value.value))
      ensures Reach(links, at, |links|).1.None? ==> r == Ok(FirstHit(Names(), links, Reach(links, at, |links|).0, target))
    {
      LookupFacts(Names(), links, at, target, |links|);
      Lookup(Names(), links, at, target, |links|)
    }

    /** findChild(target) from `at`: getChild(target) at its eldest ancestor. */
    method FindChild(at: nat, target: string) returns (r: Result<Option<nat>>)
      requires Valid() && at < |links|
      ensures r == match Root(links, at, |links|)
                   case Throws(e) => Throws(e)
                   case Ok(root) => GetChild(root, target)
      ensures r.Ok? && r.value.Some? ==>
                r.value.value < |links| && (Carries(Names()[r.value.value], target) || Registers(links, target, r.value.value))
    {
      r := Find(Names(), links, at, target, |links|);
      FindAtRoot(Names(), links, at, target, |links|);
      var root := Root(links, at, |links|);
      if root.Ok? && r.Ok? && r.value.Some? {
        LookupSound(Names(), links, root.value, target, |links|);
      }
    }

    /** contains(x, y) on `at`, `hit` being each PATH's own point test at (x, y). */
    function ContainsPoint(at: nat, hit: nat -> Result<bool>): (r: Result<bool>)
      requires Valid() && at < |links|
      reads this`nodes, this`links, nodes
      ensures nodes[at].family == PATH ==> r == hit(at)
      ensures nodes[at].family != PATH && nodes[at].family != GROUP ==> r == Throws(IllegalArgument(OnlyPaths))
      ensures nodes[at].family == GROUP && r.Ok? ==>
                (r.value <==> exists j :: 0 <= j < links[at].childCount && ChildAnswers(FamiliesOf(nodes), links, at, j, hit, |links|, true))
    {
      var r := Contains(FamiliesOf(nodes), links, at, hit, |links|);
      if nodes[at].family == GROUP && r.Ok? then
        assert r == ContainsFrom(FamiliesOf(nodes), links, at, 0, hit, |links|);
        GroupContainsAny(FamiliesOf(nodes), links, at, 0, hit, |links|); r
      else r
    }

    /**
     * The walk of enableStyle()/disableStyle(): `style` set on `at`, then
     * the walk of each child in use in slot order.
     */
    method SetStyle(at: nat, on: bool, fuel: nat) returns (error: Option<Exception>)
      requires Valid() && at < |links|
      modifies nodes`style
      ensures error == Reach(links, at, fuel).1
      ensures forall k :: 0 <= k < |nodes| ==>
                nodes[k].style == if k in Reach(links, at, fuel).0 then on else old(nodes[k].style)
      decreases fuel, 1
    {
      if fuel == 0 {
        return Some(StackOverflow);
      }
      nodes[at].style := on;
      ghost var visited := [at];
      var i := 0;
      error := None;
      while i < links[at].childCount
        invariant 0 <= i <= links[at].childCount
        invariant Reach(links, at, fuel) == (visited + ReachFrom(links, at, i, fuel).0, ReachFrom(links, at, i, fuel).1)
        invariant forall k :: 0 <= k < |nodes| ==> nodes[k].style == if k in visited then on else old(nodes[k].style)
      {
        var c := Slot(links[at], i);
        if c.Throws? {
          return Some(c.error);
        }
        SlotWithin(links[at], |links|, i);
        var e := SetStyle(c.value, on, fuel - 1);
        ghost var head := Reach(links, c.value, fuel - 1);
        if e.Some? {
          return e;
        }
        assert visited + (head.0 + ReachFrom(links, at, i + 1, fuel).0) == visited + head.0 + ReachFrom(links, at, i + 1, fuel).0;
        visited := visited + head.0;
        i := i + 1;
      }
    }

    /** enableStyle(): `style` set on `at` and, through the children, all shapes below it. */
    method EnableStyle(at: nat) returns (error: Option<Exception>)
      requires Valid() && at < |links|
      modifies nodes`style
      ensures error == Reach(links, at, |links|).1
      ensures forall k :: 0 <= k < |nodes| ==>
                nodes[k].style == if k in Reach(links, at, |links|).0 then true else old(nodes[k].style)
    {
      error := SetStyle(at, true, |links|);
    }

    /** disableStyle(): `style` cleared on `at` and, through the children, all shapes below it. */
    method DisableStyle(at: nat) returns (error: Option<Exception>)
      requires Valid() && at < |links|
      modifies nodes`style
      ensures error == Reach(links, at, |links|).1
      ensures forall k :: 0 <= k < |nodes| ==>
                nodes[k].style == if k in Reach(links, at, |links|).0 then false else old(nodes[k].style)
    {
      error := SetStyle(at, false, |links|);
    }
  }
}
