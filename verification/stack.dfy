/** A persistent, immutable, singly-linked stack.

    Every handle is either an empty root or one frame that holds a value and
    the handle it was pushed onto. Pushing never changes the handle pushed
    onto, so handles form a tree of shared ancestries: one handle may be
    pushed onto many times, giving sibling branches with the same parent.
 */
module ScopedStack {
  import opened Wrappers

  /** A stack handle. `Empty` is a handle whose frame is absent; `Frame(parent, value)`
      owns one pushed value and refers to the handle it was pushed onto. */
  datatype Stack<T> = Empty | Frame(parent: Stack<T>, value: T)

  /** Number of frames between a handle and its empty root. */
  function Depth<T>(s: Stack<T>): nat
  {
    match s
    case Empty => 0
    case Frame(p, _) => Depth(p) + 1
  }

  /** The abstraction of a handle: its values from the top (most recent push)
      down to the bottom (first push). */
  function Values<T>(s: Stack<T>): (r: seq<T>)
    ensures |r| == Depth(s)
    ensures r == [] <==> s.Empty?
  {
    match s
    case Empty => []
    case Frame(p, v) => [v] + Values(p)
  }

  /** The chain of non-empty handles reached by following parent links from
      `s`, starting with `s` itself and stopping before the empty root. */
  function Ancestry<T>(s: Stack<T>): (r: seq<Stack<T>>)
    ensures |r| == Depth(s)
    ensures |r| > 0 ==> r[0] == s
    ensures forall i :: 0 <= i < |r| ==> r[i].Frame? && Values(r[i]) == Values(s)[i..]
    ensures forall i :: 0 <= i < |r| ==> r[i].parent == if i + 1 < |r| then r[i + 1] else Empty
  {
    match s
    case Empty => []
    case Frame(p, _) => [s] + Ancestry(p)
  }

  /** `Stack::new`: a fresh empty root. */
  function New<T>(): (r: Stack<T>)
    ensures Values(r) == []
    ensures Depth(r) == 0
  {
    Empty
  }

  /** `Stack::push`: a new handle whose single frame holds `value` and whose
      parent is exactly `s`; `s` itself is a value and stays as it was. */
  function Push<T>(s: Stack<T>, value: T): (r: Stack<T>)
    ensures r.Frame? && r.parent == s
    ensures Values(r) == [value] + Values(s)
    ensures Depth(r) == Depth(s) + 1
  {
    Frame(s, value)
  }

  /** `Stack::pop`: the top value, or `None` on an empty handle. The parent
      link is dropped with the consumed handle. */
  function Pop<T>(s: Stack<T>): (r: Option<T>)
    ensures r.None? <==> Values(s) == []
    ensures r.Some? ==> r.value == Values(s)[0]
  {
    match s
    case Empty => None
    case Frame(_, v) => Some(v)
  }

  /** `Stack::peek`: observes the top value without consuming the handle. */
  function Peek<T>(s: Stack<T>): (r: Option<T>)
    ensures r.None? <==> Depth(s) == 0
    ensures r.Some? ==> |Values(s)| > 0 && r.value == Values(s)[0]
  {
    match s
    case Empty => None
    case Frame(_, v) => Some(v)
  }

  /** The derived `PartialEq`: both handles empty, or both non-empty with
      equal parents (compared first, as the first field) and equal values
      under the element type's own equality `eq`. */
  function StackEq<T>(a: Stack<T>, b: Stack<T>, eq: (T, T) -> bool): (r: bool)
    ensures r ==> Depth(a) == Depth(b)
    ensures a.Empty? && b.Empty? ==> r
    ensures r && a.Frame? ==> eq(Values(a)[0], Values(b)[0])
  {
    match (a, b)
    case (Empty, Empty) => true
    case (Frame(pa, va), Frame(pb, vb)) => StackEq(pa, pb, eq) && eq(va, vb)
    case _ => false
  }

  /** Element equality when the element type's `==` is Dafny's own. */
  function Identical<T(==)>(x: T, y: T): bool
  {
    x == y
  }

  /** A handle is determined by its values: equal handles are exactly those
      with equal values, top to bottom. */
  lemma {:induction false} ValuesInjective<T>(a: Stack<T>, b: Stack<T>)
    ensures a == b <==> Values(a) == Values(b)
  {
    if Values(a) == Values(b) && a.Frame? && b.Frame? {
      assert Values(a.parent) == Values(a)[1..] == Values(b)[1..] == Values(b.parent);
      ValuesInjective(a.parent, b.parent);
    }
  }

  /** The derived equality compares values pointwise, top to bottom, and
      requires equal depths. */
  lemma {:induction false} StackEqPointwise<T>(a: Stack<T>, b: Stack<T>, eq: (T, T) -> bool)
    ensures StackEq(a, b, eq) <==>
      (|Values(a)| == |Values(b)| &&
       forall i :: 0 <= i < |Values(a)| ==> eq(Values(a)[i], Values(b)[i]))
  {
    if a.Frame? && b.Frame? {
      StackEqPointwise(a.parent, b.parent, eq);
      var va, vb := Values(a), Values(b);
      assert va[1..] == Values(a.parent) && vb[1..] == Values(b.parent);
      if |va| == |vb| && forall i :: 0 <= i < |va| ==> eq(va[i], vb[i]) {
        assert eq(a.value, b.value) by { assert va[0] == a.value && vb[0] == b.value; }
        forall i | 0 <= i < |va[1..]|
          ensures eq(va[1..][i], vb[1..][i])
        {
          assert va[1..][i] == va[i + 1] && vb[1..][i] == vb[i + 1];
        }
      }
      if StackEq(a, b, eq) {
        forall i | 0 <= i < |va|
          ensures eq(va[i], vb[i])
        {
          if i > 0 {
            assert va[i] == va[1..][i - 1] && vb[i] == vb[1..][i - 1];
          }
        }
      }
    } else if a.Frame? || b.Frame? {
      assert |Values(a)| != |Values(b)|;
    }
  }

  /** With the element type's equality being `==`, the derived equality is
      exactly structural equality of handles. */
  lemma {:induction false} StackEqIsStructural<T>(a: Stack<T>, b: Stack<T>)
    ensures StackEq(a, b, Identical) <==> a == b
  {
    if a.Frame? && b.Frame? {
      StackEqIsStructural(a.parent, b.parent);
    }
  }

  /** A clone (the same handle value) is equal to the original whenever the
      element equality is reflexive. */
  lemma {:induction false} StackEqReflexive<T>(s: Stack<T>, eq: (T, T) -> bool)
    requires forall x :: eq(x, x)
    ensures StackEq(s, s, eq)
  {
    if s.Frame? {
      StackEqReflexive(s.parent, eq);
    }
  }

  /** `push` then `pop` (or `peek`) gives back the pushed value, and the new
      handle's parent is the handle pushed onto. */
  lemma PushPopRoundTrip<T>(s: Stack<T>, v: T)
    ensures Pop(Push(s, v)) == Some(v)
    ensures Peek(Push(s, v)) == Some(v)
    ensures Push(s, v).parent == s
  {
  }

  /** Two pushes onto the same handle give independent siblings sharing one
      parent; they are equal exactly when the pushed values are. */
  lemma SiblingBranches<T>(s: Stack<T>, a: T, b: T)
    ensures Push(s, a).parent == Push(s, b).parent == s
    ensures Values(Push(s, a))[1..] == Values(Push(s, b))[1..] == Values(s)
    ensures Push(s, a) == Push(s, b) <==> a == b
  {
  }

  /** A fresh stack has nothing to pop or peek. */
  lemma NewIsEmpty<T>()
    ensures Pop(New<T>()) == None
    ensures Peek(New<T>()) == None
    ensures Ancestry(New<T>()) == []
  {
  }

  /** The peek of the i-th handle of the ancestry is the i-th value. */
  lemma AncestryPeeks<T>(s: Stack<T>, i: nat)
    requires i < Depth(s)
    ensures Peek(Ancestry(s)[i]) == Some(Values(s)[i])
  {
    var r := Ancestry(s);
    assert Values(r[i]) == Values(s)[i..];
  }

  /** The sequence reversed. */
  function Reverse<T>(xs: seq<T>): (r: seq<T>)
    ensures |r| == |xs|
    ensures forall i :: 0 <= i < |xs| ==> r[i] == xs[|xs| - 1 - i]
  {
    if xs == [] then [] else Reverse(xs[1..]) + [xs[0]]
  }

  /** Pushes `vs` onto `s`, first element first. */
  function PushAll<T>(s: Stack<T>, vs: seq<T>): Stack<T>
    decreases |vs|
  {
    if vs == [] then s else PushAll(Push(s, vs[0]), vs[1..])
  }

  /** Pushing `v1, ..., vn` leaves `vn` on top: values come out in reverse
      push order, above the values already there. */
  lemma {:induction false} PushAllValues<T>(s: Stack<T>, vs: seq<T>)
    ensures Values(PushAll(s, vs)) == Reverse(vs) + Values(s)
    ensures Depth(PushAll(s, vs)) == Depth(s) + |vs|
    decreases |vs|
  {
    if vs != [] {
      PushAllValues(Push(s, vs[0]), vs[1..]);
      assert Reverse(vs) == Reverse(vs[1..]) + [vs[0]];
      assert Values(Push(s, vs[0])) == [vs[0]] + Values(s);
    }
  }

  /** Two stacks built from empty roots are equal exactly when the same
      values were pushed in the same order. */
  lemma PushAllInjective<T>(xs: seq<T>, ys: seq<T>)
    ensures PushAll(New(), xs) == PushAll(New(), ys) <==> xs == ys
  {
    PushAllValues(New(), xs);
    PushAllValues(New(), ys);
    ValuesInjective(PushAll(New(), xs), PushAll(New(), ys));
    assert Values(PushAll(New(), xs)) == Reverse(xs) + [] == Reverse(xs);
    assert Values(PushAll(New(), ys)) == Reverse(ys) + [] == Reverse(ys);
    if Reverse(xs) == Reverse(ys) {
      assert |xs| == |ys|;
      forall j | 0 <= j < |xs|
        ensures xs[j] == ys[j]
      {
        var i := |xs| - 1 - j;
        assert Reverse(xs)[i] == xs[j] && Reverse(ys)[i] == ys[j];
      }
    }
  }
}
