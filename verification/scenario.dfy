/** The crate's own test tree, as concrete facts: one empty root, two
    children `a` and `b` of it, and two children of each. */
module StackScenario {
  import opened Wrappers
  import opened ScopedStack
  import opened StackIterators
  import opened StackDebug

  /** `Debug` of a string slice: the text in double quotes (no escaping,
      since the scenario's strings contain no character that needs it). */
  function QuoteStr(s: string): (r: string)
    ensures |r| == |s| + 2 && r[0] == '"' && r[|r| - 1] == '"' && r[1..|r| - 1] == s
  {
    "\"" + s + "\""
  }

  /** The handles of the test, named as there. */
  function Root(): Stack<string> { New() }
  function A(): Stack<string> { Push(Root(), "hoge a") }
  function B(): Stack<string> { Push(Root(), "hoge b") }
  function AA(): Stack<string> { Push(A(), "fuga aa") }
  function AB(): Stack<string> { Push(A(), "fuga ab") }
  function BA(): Stack<string> { Push(B(), "fuga ba") }
  function BB(): Stack<string> { Push(B(), "fuga bb") }

  /** Siblings share their parent and are distinct handles. */
  lemma TestTreeShape()
    ensures A() != B() && AA() != AB() && BA() != BB() && AA() != BA()
    ensures AA().parent == AB().parent == A()
    ensures BA().parent == BB().parent == B()
    ensures A().parent == B().parent == Root()
  {
  }

  /** Each branch iterates as its own path back to the root. */
  lemma TestTreeIteration()
    ensures Drain(Iter(AA())) == ["fuga aa", "hoge a"]
    ensures Drain(Iter(BB())) == ["fuga bb", "hoge b"]
    ensures Drain(Iter(B())) == ["hoge b"]
    ensures DrainFrames(IterFrames(AA())) == [AA(), A()]
  {
  }

  /** The root and `aa` render as the test prints them. */
  lemma TestTreeRender()
    ensures Render(Root(), QuoteStr) == "[<top>, <base>]"
    ensures Render(AA(), QuoteStr) == "[<top>, \"fuga aa\", \"hoge a\", <base>]"
  {
    assert Values(AA()) == ["fuga aa", "hoge a"];
    assert ShowAll(["hoge a"], QuoteStr) == QuoteStr("hoge a") + ", ";
    assert ShowAll(["fuga aa", "hoge a"], QuoteStr)
        == QuoteStr("fuga aa") + ", " + QuoteStr("hoge a") + ", ";
  }
}
