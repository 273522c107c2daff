/** The two lazy iterators over a handle: one yields values, the other the
    handles (sub-stacks) themselves, both from the top down to the empty root,
    which is never yielded. Iterating only reads the handle. */
module StackIterators {
  import opened Wrappers
  import opened ScopedStack

  /** Iterator over values; `current` is the handle still to be walked. */
  datatype StackIter<T> = StackIter(current: Stack<T>)

  /** Iterator over handles; `current` is the next handle to yield. */
  datatype StackFrameIter<T> = StackFrameIter(current: Stack<T>)

  /** `StackIter::next`: on an empty position yields `None` and stays put;
      otherwise yields the top value and moves to the parent, one frame
      closer to the root. */
  function Next<T>(it: StackIter<T>): (r: (Option<T>, StackIter<T>))
    ensures Values(it.current) == [] ==> r == (None, it)
    ensures Values(it.current) != [] ==>
      && r.0 == Some(Values(it.current)[0])
      && Values(r.1.current) == Values(it.current)[1..]
      && Depth(r.1.current) == Depth(it.current) - 1
  {
    match it.current
    case Empty => (None, it)
    case Frame(parent, value) => (Some(value), StackIter(parent))
  }

  /** `StackFrameIter::next`: on an empty position yields `None` and stays
      put; otherwise yields the current handle itself and moves to its parent. */
  function NextFrame<T>(it: StackFrameIter<T>): (r: (Option<Stack<T>>, StackFrameIter<T>))
    ensures Depth(it.current) == 0 ==> r == (None, it)
    ensures Depth(it.current) > 0 ==>
      && r.0 == Some(it.current)
      && Peek(it.current).Some?
      && r.1.current == it.current.parent
      && Depth(r.1.current) == Depth(it.current) - 1
  {
    match it.current
    case Empty => (None, it)
    case Frame(parent, _) => (Some(it.current), StackFrameIter(parent))
  }

  /** Everything a value iterator yields when called until it returns `None`:
      exactly the values still below it, top first. */
  function Drain<T>(it: StackIter<T>): (r: seq<T>)
    ensures r == Values(it.current)
    decreases Depth(it.current)
  {
    var step := Next(it);
    match step.0
    case None => []
    case Some(x) => [x] + Drain(step.1)
  }

  /** Everything a frame iterator yields when called until it returns `None`:
      the ancestry of its position. */
  function DrainFrames<T>(it: StackFrameIter<T>): (r: seq<Stack<T>>)
    ensures r == Ancestry(it.current)
    decreases Depth(it.current)
  {
    var step := NextFrame(it);
    match step.0
    case None => []
    case Some(h) => [h] + DrainFrames(step.1)
  }

  /** `Stack::iter`: a value iterator with every value of `s` still to
      yield; by `Drain`, it yields them top to bottom. */
  function Iter<T>(s: Stack<T>): (r: StackIter<T>)
    ensures Values(r.current) == Values(s)
    ensures Depth(r.current) == Depth(s)
  {
    StackIter(s)
  }

  /** `Stack::iter_frames`: a frame iterator with the whole ancestry of `s`
      still to yield: `s` itself first (unless empty), then each ancestor
      down to, but not including, the empty root. */
  function IterFrames<T>(s: Stack<T>): (r: StackFrameIter<T>)
    ensures Ancestry(r.current) == Ancestry(s)
    ensures Depth(r.current) == Depth(s)
  {
    StackFrameIter(s)
  }

  /** Driving either fresh iterator to the end yields the handle's values,
      respectively its ancestry, `Depth(s)` items each. */
  lemma IterYields<T>(s: Stack<T>)
    ensures Drain(Iter(s)) == Values(s)
    ensures DrainFrames(IterFrames(s)) == Ancestry(s)
    ensures |Drain(Iter(s))| == |DrainFrames(IterFrames(s))| == Depth(s)
  {
  }

  /** A `for item in s.iter()` loop collecting the items, walking parent
      links one step at a time rather than by recursion. */
  method CollectValues<T>(s: Stack<T>) returns (xs: seq<T>)
    ensures xs == Values(s)
  {
    var it := Iter(s);
    xs := [];
    var done := false;
    while !done
      invariant xs + Values(it.current) == Values(s)
      invariant done ==> Values(it.current) == []
      decreases Depth(it.current), !done
    {
      var step := Next(it);
      match step.0 {
        case None =>
          done := true;
        case Some(x) =>
          assert Values(it.current) == [x] + Values(step.1.current);
          xs := xs + [x];
      }
      it := step.1;
    }
    assert Values(it.current) == [];
    assert xs + [] == xs;
  }

  /** A caller's loop driving the frame iterator until `None`, collecting
      the handles: the first is `s`, each later one is the parent of the one
      before, none is empty, and there are exactly `Depth(s)` of them. */
  method CollectFrames<T>(s: Stack<T>) returns (hs: seq<Stack<T>>)
    ensures hs == Ancestry(s)
    ensures |hs| == Depth(s)
    ensures |hs| > 0 ==> hs[0] == s
    ensures forall i :: 0 <= i < |hs| ==> hs[i].Frame?
    ensures forall i :: 0 < i < |hs| ==> hs[i] == hs[i - 1].parent
  {
    var it := IterFrames(s);
    hs := [];
    var done := false;
    while !done
      invariant hs + Ancestry(it.current) == Ancestry(s)
      invariant done ==> Depth(it.current) == 0
      decreases Depth(it.current), !done
    {
      var step := NextFrame(it);
      match step.0 {
        case None =>
          done := true;
        case Some(h) =>
          assert Ancestry(it.current) == [h] + Ancestry(step.1.current);
          hs := hs + [h];
      }
      it := step.1;
    }
    assert Ancestry(it.current) == [];
    assert hs + [] == hs;
    forall i | 0 < i < |hs|
      ensures hs[i] == hs[i - 1].parent
    {
      assert hs[i - 1].parent == hs[i];
    }
  }

  /** The i-th handle a frame iterator yields has the i-th value on top. */
  lemma FramePeeksMatchValues<T>(s: Stack<T>, i: nat)
    requires i < |DrainFrames(IterFrames(s))|
    ensures Peek(DrainFrames(IterFrames(s))[i]) == Some(Drain(Iter(s))[i])
  {
    AncestryPeeks(s, i);
  }

  /** A fresh stack's iterators yield nothing. */
  lemma NewIteratesNothing<T>()
    ensures Drain(Iter(New<T>())) == []
    ensures DrainFrames(IterFrames(New<T>())) == []
    ensures Next(Iter(New<T>())).0 == None
    ensures NextFrame(IterFrames(New<T>())).0 == None
  {
  }

  /** Iterating a pushed handle yields the pushed value and then the values of
      the handle pushed onto; frame iteration yields the new handle and then
      the old handle's frames. */
  lemma IterPush<T>(s: Stack<T>, v: T)
    ensures Drain(Iter(Push(s, v))) == [v] + Drain(Iter(s))
    ensures DrainFrames(IterFrames(Push(s, v))) == [Push(s, v)] + DrainFrames(IterFrames(s))
  {
  }
}
