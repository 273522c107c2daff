# scoped_stack in Dafny

A model of `scoped_stack`, a persistent, immutable, singly-linked stack.
A handle (`Stack`) is either empty or one frame holding a value and a
reference to the handle it was pushed onto (its parent). `push` never
changes the handle pushed onto. So one handle can be pushed onto many
times, and the handles form a tree of shared ancestries. Two lazy
iterators walk parent links from a handle down to the empty root. One
yields values and the other yields the handles themselves. Neither yields
the root.

Files:

- `wrappers.dfy`: module `Wrappers`, the `Option` that `pop`, `peek` and `next` return.
- `stack.dfy`: module `ScopedStack`, the handle datatype `Stack<T> = Empty | Frame(parent, value)`.
  It also holds `new`/`push`/`pop`/`peek` and the derived equality.
  Most contracts are stated against `Values(s)` (values, top first) and `Depth(s)` (number of frames).
  `Ancestry(s)` is the chain of non-empty handles from `s` down to the root.
  The equality lemmas also use `StackEq` and `==`.
- `iter.dfy`: module `StackIterators`, the two iterator records and their `next` steps.
  Every step that yields an item strictly decreases `Depth(current)`.
  A step on an empty position yields `None` and leaves the iterator where it is.
  `Drain`/`DrainFrames` call `next` until it returns `None`.
  `CollectValues`/`CollectFrames` do the same with a loop instead of recursion.
- `debug.dfy`: module `StackDebug`, the `Debug` rendering `[<top>, v1, ..., vn, <base>]`.
  Each element is rendered by an abstract `show: T -> string`, which stands for the element type's own `Debug`.
- `scenario.dfy`: module `StackScenario`, the crate's test tree (`a`, `b`, `aa`, `ab`, `ba`, `bb`) as concrete facts.

Notes on what the code does:

- `fmt` renders each item with the item's own `Debug`. For the test's `&str` items, that wraps each string in double quotes.
  So `aa` renders as `[<top>, "fuga aa", "hoge a", <base>]`.
- `pop` consumes the handle and returns only the top value.
  It does not give back the handle that was pushed onto; the model states `Push(s, v).parent == s` instead.
- The derived `PartialEq` compares the parent first and then the value.
  It uses the element type's own equality, so `StackEq` takes that equality as a parameter `eq`.
  Whether `eq` is total or partial is up to the element type.
  `StackEqPointwise` holds for any `eq`.
  `StackEqIsStructural` covers the case where `eq` is `==`.

## Model

| member | source | states |
|---|---|---|
| ScopedStack.Values | src/lib.rs:1-10 | the values of a handle, top first, number exactly `Depth(s)`, and are empty iff the handle has no frame |
| ScopedStack.Ancestry | src/lib.rs:83-93 | the chain of handles from `s`: first is `s`, each next one is the parent of the previous, none is empty, the last one's parent is the empty root, `Depth(s)` of them, and the i-th holds the values of `s` from position i on |
| ScopedStack.New | src/lib.rs:33-38 | a new stack has no values and depth 0 |
| ScopedStack.Push | src/lib.rs:23-31 | the new handle's parent is exactly the handle pushed onto, its values are the pushed value followed by the old values, and its depth is one more |
| ScopedStack.Pop | src/lib.rs:40-43 | `None` iff the handle has no values, otherwise the top value |
| ScopedStack.Peek | src/lib.rs:45-47 | `None` iff depth is 0, otherwise the top value |
| ScopedStack.ValuesInjective | src/lib.rs:1-10 | two handles are equal iff their values agree top to bottom |
| ScopedStack.StackEq | src/lib.rs:1-10 | the derived equality: two empty handles are equal; equal handles have the same depth and equal top values under the element equality |
| ScopedStack.StackEqPointwise | src/lib.rs:1-10 | the derived equality holds iff both handles have the same depth and their values are pairwise equal under the element equality |
| ScopedStack.StackEqIsStructural | src/lib.rs:1-10 | with the element equality being `==`, the derived equality is exactly equality of handles |
| ScopedStack.StackEqReflexive | src/lib.rs:1 | a clone compares equal to its original whenever the element equality is reflexive |
| ScopedStack.PushPopRoundTrip | src/lib.rs:24-47 | after `push(v)`, both `pop` and `peek` give `Some(v)`, and the parent of the pushed handle is the original handle |
| ScopedStack.SiblingBranches | src/lib.rs:24-31 | two pushes onto one handle share that handle as parent and the same remaining values, and are equal iff the pushed values are |
| ScopedStack.NewIsEmpty | src/lib.rs:34-47 | `pop` and `peek` of a new stack are `None` and its ancestry is empty |
| ScopedStack.AncestryPeeks | src/lib.rs:45-47 | the peek of the i-th handle in the ancestry is the i-th value |
| ScopedStack.PushAllValues | src/lib.rs:24-31 | pushing `v1..vn` yields the values `vn..v1` above the existing ones, and depth grows by n |
| ScopedStack.PushAllInjective | src/lib.rs:1-31 | stacks built from empty roots are equal iff the same values were pushed in the same order |
| StackIterators.Next | src/lib.rs:72-80 | on an empty position, yields `None` and stays put; otherwise yields the top value and moves to a position holding the remaining values, one frame shallower |
| StackIterators.NextFrame | src/lib.rs:83-93 | on an empty position, yields `None` and stays put; otherwise yields the current (non-empty) handle and moves to its parent, one frame shallower |
| StackIterators.Drain | src/lib.rs:72-80 | calling `next` until `None` yields exactly the values under the iterator's position, top first |
| StackIterators.DrainFrames | src/lib.rs:83-93 | calling `next` on a frame iterator until `None` yields exactly the ancestry of its position |
| StackIterators.Iter | src/lib.rs:49-51 | a fresh value iterator of `s` still has every value of `s`, and all `Depth(s)` frames, left to walk |
| StackIterators.IterFrames | src/lib.rs:53-55 | a fresh frame iterator of `s` still has the whole ancestry of `s`, and all `Depth(s)` frames, left to walk |
| StackIterators.IterYields | src/lib.rs:49-55 | driving a fresh value iterator to the end yields the values of `s` top to bottom; driving a fresh frame iterator yields the ancestry of `s`; each yields `Depth(s)` items |
| StackIterators.CollectValues | src/lib.rs:62-65 | a loop over `iter()` collects exactly the values, top first |
| StackIterators.CollectFrames | src/lib.rs:83-93 | a caller's loop that drives `StackFrameIter::next` until `None` collects `Depth(s)` non-empty handles: first `s`, then each parent of the previous one |
| StackIterators.FramePeeksMatchValues | src/lib.rs:83-93 | the peek of the i-th yielded frame equals the i-th yielded value |
| StackIterators.NewIteratesNothing | src/lib.rs:34-93 | both iterators of a new stack yield nothing, starting from the first `next` |
| StackIterators.IterPush | src/lib.rs:72-93 | iterating a pushed handle yields the pushed value (resp. the new handle) followed by what the old handle yields |
| StackDebug.Fmt | src/lib.rs:58-69 | the rendering is `[<top>, ` then each value rendered and followed by `, `, top first, then `<base>]` |
| StackDebug.RenderNew | src/lib.rs:58-69 | an empty stack renders as `[<top>, <base>]` |
| StackDebug.RenderPush | src/lib.rs:58-69 | pushing `v` inserts `show(v)` and `, ` right after the top marker and keeps the rest of the rendering |
| StackDebug.ShowAllAppend | src/lib.rs:62-65 | rendering the items of two consecutive runs of values is the concatenation of rendering each run |
| StackDebug.RenderPushAll | src/lib.rs:58-69 | pushing `v1..vn` inserts their renderings newest first right after the top marker and keeps the rest |
| StackScenario.TestTreeShape | src/lib.rs:99-114 | in the test tree, siblings share their parent and are distinct handles |
| StackScenario.TestTreeIteration | src/lib.rs:99-114 | in the test tree, `aa` iterates to `["fuga aa", "hoge a"]` and `bb` to `["fuga bb", "hoge b"]`; `aa`'s frames are `[aa, a]` |
| StackScenario.TestTreeRender | src/lib.rs:101-116 | the empty root and `aa` render as the test prints them |

## Left out

- Lifetimes and borrowing (`'a`, `'b`, parent links held by `&` reference). Immutable Dafny values give the same sharing, and the scope-ordering rule has nothing to check here.
- Reference identity: `peek` and both iterators hand out references, and the model hands out the values (or handles) themselves.
- `std::fmt::Formatter` and the `?` error propagation in `fmt`. The formatter is an output sink; only the resulting text is modelled.
- The element type's `Debug` is the abstract parameter `show`. The scenario's `QuoteStr` quotes a string without escaping; the test's strings contain nothing to escape.
- The derived `Clone` (the identity on immutable values) and `#[must_use]`.
- Iterating twice, or after a `peek`: every operation here is a pure function of an immutable value, so repeated calls give the same result by construction. No separate lemma states this.
- The `#[test]` function and its `println!` calls appear only as the concrete facts of `StackScenario`.
