/** The `Debug` rendering of a handle: `[<top>, v1, v2, ..., vn, <base>]`,
    values top to bottom, each followed by ", ". How one element is rendered
    is the element type's own business, given here as `show`. */
module StackDebug {
  import opened Wrappers
  import opened ScopedStack
  import opened StackIterators

  /** Each value rendered and followed by ", ", in order. */
  function ShowAll<T>(xs: seq<T>, show: T -> string): string
  {
    if xs == [] then "" else show(xs[0]) + ", " + ShowAll(xs[1..], show)
  }

  /** The text the formatter receives for handle `s`. */
  function Render<T>(s: Stack<T>, show: T -> string): string
  {
    "[<top>, " + ShowAll(Values(s), show) + "<base>]"
  }

  /** `Debug::fmt`: writes the opening marker, then every item of `s.iter()`
      followed by ", ", then the closing marker. */
  method Fmt<T>(s: Stack<T>, show: T -> string) returns (out: string)
    ensures out == Render(s, show)
    ensures |out| >= 15 && out[..8] == "[<top>, " && out[|out| - 7..] == "<base>]"
  {
    out := "[";
    out := out + "<top>, ";
    var it := Iter(s);
    var done := false;
    while !done
      invariant out + ShowAll(Values(it.current), show) + "<base>]" == Render(s, show)
      invariant |out| >= 8 && out[..8] == "[<top>, "
      invariant done ==> Values(it.current) == []
      decreases Depth(it.current), !done
    {
      var step := Next(it);
      match step.0 {
        case None =>
          done := true;
        case Some(item) =>
          assert ShowAll(Values(it.current), show)
              == show(item) + ", " + ShowAll(Values(step.1.current), show);
          out := out + show(item);
          out := out + ", ";
      }
      it := step.1;
    }
    out := out + "<base>";
    out := out + "]";
  }

  /** A fresh stack renders as the two markers alone. */
  lemma RenderNew<T>(show: T -> string)
    ensures Render(New<T>(), show) == "[<top>, <base>]"
  {
  }

  /** Pushing `v` inserts its rendering, followed by ", ", right after the
      top marker and leaves the rest of the rendering as it was. */
  lemma RenderPush<T>(s: Stack<T>, v: T, show: T -> string)
    ensures Render(Push(s, v), show)
         == "[<top>, " + show(v) + ", " + Render(s, show)[8..]
  {
    assert Values(Push(s, v))[1..] == Values(s);
  }

  /** Rendering a concatenation renders each part in turn. */
  lemma {:induction false} ShowAllAppend<T>(xs: seq<T>, ys: seq<T>, show: T -> string)
    ensures ShowAll(xs + ys, show) == ShowAll(xs, show) + ShowAll(ys, show)
  {
    if xs != [] {
      assert (xs + ys)[1..] == xs[1..] + ys;
      ShowAllAppend(xs[1..], ys, show);
    } else {
      assert xs + ys == ys;
    }
  }

  /** Pushing `v1, ..., vn` onto `s` renders them newest first, right after
      the top marker, ahead of the rendering of `s`'s own values. */
  lemma RenderPushAll<T>(s: Stack<T>, vs: seq<T>, show: T -> string)
    ensures Render(PushAll(s, vs), show)
         == "[<top>, " + ShowAll(Reverse(vs), show) + Render(s, show)[8..]
  {
    PushAllValues(s, vs);
    ShowAllAppend(Reverse(vs), Values(s), show);
  }
}
