/** The heading outline: counts and skip flags from one scan, and a forest built with a stack. */
module Headings {
  import opened Collections

  type Level = l: int | 1 <= l <= 6 witness 1

  /** A heading element of the page: its tag is "h" followed by the level; the text is stripped. */
  datatype Element = Element(level: Level, text: string)

  // ---------------------------------------------------------------- parents

  /** The last index below n whose level is smaller than x, or -1. */
  function NearestSmaller(levels: seq<int>, n: nat, x: int): (p: int)
    requires n <= |levels|
    ensures -1 <= p < n
    ensures p >= 0 ==> levels[p] < x
    ensures forall q :: p < q < n ==> levels[q] >= x
  {
    if n == 0 then -1 else if levels[n - 1] < x then n - 1 else NearestSmaller(levels, n - 1, x)
  }

  /** The nearest earlier heading of strictly smaller level, or -1. */
  function Parent(levels: seq<int>, j: nat): (p: int)
    requires j < |levels|
    ensures -1 <= p < j
    ensures p >= 0 ==> levels[p] < levels[j]
    ensures forall q :: p < q < j ==> levels[q] >= levels[j]
  {
    NearestSmaller(levels, j, levels[j])
  }

  ghost predicate Ascending(ids: seq<nat>) {
    forall i, j :: 0 <= i < j < |ids| ==> ids[i] < ids[j]
  }

  /** The headings of [lo, hi) whose parent is p, in page order. */
  function Kids(levels: seq<int>, p: int, lo: nat, hi: nat): seq<nat>
    requires lo <= hi <= |levels|
  {
    if lo == hi then []
    else Kids(levels, p, lo, hi - 1) + (if Parent(levels, hi - 1) == p then [hi - 1] else [])
  }

  lemma {:induction false} KidsBounds(levels: seq<int>, p: int, lo: nat, hi: nat)
    requires lo <= hi <= |levels|
    ensures forall i :: 0 <= i < |Kids(levels, p, lo, hi)| ==>
              lo <= Kids(levels, p, lo, hi)[i] < hi && p < Kids(levels, p, lo, hi)[i]
  {
    if lo < hi { KidsBounds(levels, p, lo, hi - 1); }
  }

  lemma {:induction false} KidsAscend(levels: seq<int>, p: int, lo: nat, hi: nat)
    requires lo <= hi <= |levels|
    ensures Ascending(Kids(levels, p, lo, hi))
  {
    if lo < hi {
      KidsBounds(levels, p, lo, hi - 1);
      KidsAscend(levels, p, lo, hi - 1);
    }
  }

  lemma KidsNext(levels: seq<int>, p: int, i: nat)
    requires i < |levels|
    ensures Kids(levels, p, 0, i + 1) == Kids(levels, p, 0, i) + if Parent(levels, i) == p then [i] else []
  {
  }

  // ---------------------------------------------------------------- the two loops

  ghost predicate Skips(levels: seq<int>, j: nat)
    requires j < |levels|
  {
    j > 0 && levels[j] > levels[j - 1] + 1
  }

  function Levels(elements: seq<Element>): (levels: seq<int>)
    ensures |levels| == |elements|
  {
    seq(|elements|, i requires 0 <= i < |elements| => elements[i].level)
  }

  function Texts(elements: seq<Element>): (texts: seq<string>)
    ensures |texts| == |elements|
  {
    seq(|elements|, i requires 0 <= i < |elements| => elements[i].text)
  }

  function CountOf<T(==)>(s: seq<T>, x: T): nat {
    if s == [] then 0 else CountOf(s[..|s| - 1], x) + (if s[|s| - 1] == x then 1 else 0)
  }

  lemma CountNext<T>(s: seq<T>, i: nat, x: T)
    requires i < |s|
    ensures CountOf(s[..i + 1], x) == CountOf(s[..i], x) + if s[i] == x then 1 else 0
  {
    assert s[..i + 1][..i] == s[..i];
  }

  /** The first loop: how many headings of each level, which headings skip a level, how many are empty. */
  method Scan(elements: seq<Element>)
    returns (counts: array<nat>, isSkipped: array<bool>, hasSkippedLevels: bool, empty: nat)
    ensures counts.Length == 7 && forall l :: 1 <= l <= 6 ==> counts[l] == CountOf(Levels(elements), l)
    ensures isSkipped.Length == |elements|
    ensures forall j :: 0 <= j < |elements| ==> (isSkipped[j] <==> Skips(Levels(elements), j))
    ensures hasSkippedLevels <==> exists j :: 0 <= j < |elements| && Skips(Levels(elements), j)
    ensures empty == CountOf(Texts(elements), "")
  {
    ghost var levels := Levels(elements);
    ghost var texts := Texts(elements);
    counts := new nat[7](_ => 0);
    isSkipped := new bool[|elements|];
    hasSkippedLevels, empty := false, 0;
    var previous: int := 0;
    for i := 0 to |elements|
      invariant forall l :: 1 <= l <= 6 ==> counts[l] == CountOf(levels[..i], l)
      invariant empty == CountOf(texts[..i], "")
      invariant previous == if i == 0 then 0 else levels[i - 1]
      invariant forall j :: 0 <= j < i ==> (isSkipped[j] <==> Skips(levels, j))
      invariant hasSkippedLevels <==> exists j :: 0 <= j < i && Skips(levels, j)
    {
      var level := elements[i].level;
      CountNext(texts, i, "");
      forall l ensures CountOf(levels[..i + 1], l) == CountOf(levels[..i], l) + if levels[i] == l then 1 else 0 {
        CountNext(levels, i, l);
      }
      if elements[i].text == "" { empty := empty + 1; }
      counts[level] := counts[level] + 1;
      isSkipped[i] := previous > 0 && level > previous + 1;
      if isSkipped[i] { hasSkippedLevels := true; }
      assert isSkipped[i] <==> Skips(levels, i);
      previous := level;
    }
    assert levels[..|elements|] == levels && texts[..|elements|] == texts;
  }

  ghost predicate ListedAt(levels: seq<int>, children: seq<seq<nat>>, i: nat, p: nat)
    requires i <= |levels| && p < |children|
  {
    children[p] == Kids(levels, p, 0, i)
  }

  /** The children lists once the first i headings are in the tree. */
  ghost predicate Listed(levels: seq<int>, children: seq<seq<nat>>, i: nat)
    requires i <= |levels|
  {
    |children| == |levels| && forall p :: 0 <= p < |children| ==> ListedAt(levels, children, i, p)
  }

  lemma AddChild(levels: seq<int>, before: seq<seq<nat>>, after: seq<seq<nat>>, i: nat, j: nat)
    requires i < |levels| && j == i + 1 && Listed(levels, before, i) && |after| == |before|
    requires forall p :: 0 <= p < |levels| ==> after[p] == before[p] + if Parent(levels, i) == p then [i] else []
    ensures Listed(levels, after, j)
  {
    forall p | 0 <= p < |levels|
      ensures ListedAt(levels, after, j, p)
    {
      assert ListedAt(levels, before, i, p);
      KidsNext(levels, p, i);
    }
  }

  function TagOfParent(levels: seq<int>, j: nat): Option<int>
    requires j < |levels|
  {
    if Parent(levels, j) < 0 then None else Some(levels[Parent(levels, j)])
  }

  ghost predicate TaggedAt(levels: seq<int>, tags: seq<Option<int>>, j: nat) {
    j < |levels| && j < |tags| && tags[j] == TagOfParent(levels, j)
  }

  lemma AddTag(levels: seq<int>, before: seq<Option<int>>, after: seq<Option<int>>, i: nat)
    requires i < |levels| && |before| == |levels| && after == before[i := TagOfParent(levels, i)]
    requires forall k :: 0 <= k < i ==> TaggedAt(levels, before, k)
    ensures forall k :: 0 <= k < i + 1 ==> TaggedAt(levels, after, k)
  {
    forall k | 0 <= k < i
      ensures TaggedAt(levels, after, k)
    {
      assert TaggedAt(levels, before, k);
    }
  }

  /** Pops what is not above heading i, down to its parent. */
  method Unwind(levels: seq<int>, path: seq<nat>, i: nat) returns (stack: seq<nat>)
    requires i < |levels| && IsPath(levels, path, i)
    requires if i == 0 then path == [] else path != [] && path[|path| - 1] == i - 1
    ensures IsPath(levels, stack, i)
    ensures stack != [] ==> stack[|stack| - 1] < i
    ensures Parent(levels, i) == if stack == [] then -1 else stack[|stack| - 1]
  {
    stack := path;
    while stack != [] && levels[stack[|stack| - 1]] >= levels[i]
      invariant IsPath(levels, stack, i)
      invariant stack != [] ==> stack[|stack| - 1] < i
      invariant forall q :: (if stack == [] then -1 else stack[|stack| - 1] as int) < q < i ==> levels[q] >= levels[i]
    {
      Pop(levels, stack, i);
      stack := stack[..|stack| - 1];
    }
  }

  /** What the second loop has built from the first i headings. */
  ghost predicate Built(levels: seq<int>, tree: seq<nat>, children: seq<seq<nat>>, tags: seq<Option<int>>, i: nat)
    requires i <= |levels|
  {
    && tree == Kids(levels, -1, 0, i) && Listed(levels, children, i)
    && |tags| == |levels| && forall j :: 0 <= j < i ==> TaggedAt(levels, tags, j)
  }

  /** A heading without parent becomes a root. */
  lemma BuiltRoot(levels: seq<int>, tree: seq<nat>, children: seq<seq<nat>>, tags: seq<Option<int>>, i: nat)
    requires i < |levels| && Built(levels, tree, children, tags, i) && Parent(levels, i) == -1
    ensures Built(levels, tree + [i], children, tags[i := None], i + 1)
  {
    KidsNext(levels, -1, i);
    AddChild(levels, children, children, i, i + 1);
    AddTag(levels, tags, tags[i := None], i);
  }

  /** Any other one goes to the end of its parent's children. */
  lemma BuiltChild(levels: seq<int>, tree: seq<nat>, children: seq<seq<nat>>, tags: seq<Option<int>>, i: nat, p: nat)
    requires i < |levels| && Built(levels, tree, children, tags, i) && Parent(levels, i) == p
    ensures
      Built(levels, tree, children[p := children[p] + [i]], tags[i := Some(levels[p])], i + 1)
  {
    KidsNext(levels, -1, i);
    AddChild(levels, children, children[p := children[p] + [i]], i, i + 1);
    AddTag(levels, tags, tags[i := Some(levels[p])], i);
  }

  /** The second loop. A node stands for the heading it wraps; `children` and `parentTag` (the level in
      the parent's tag) are filled in place, the stack holds the path to the latest node. */
  method BuildTree(levels: seq<int>)
    returns (tree: seq<nat>, children: array<seq<nat>>, parentTag: array<Option<int>>)
    ensures children.Length == parentTag.Length == |levels|
    ensures tree == Kids(levels, -1, 0, |levels|)
    ensures Listed(levels, children[..], |levels|)
    ensures forall j :: 0 <= j < |levels| ==> TaggedAt(levels, parentTag[..], j)
  {
    var n := |levels|;
    tree := [];
    children := new seq<nat>[n](_ => []);
    parentTag := new Option<int>[n](_ => None);
    var stack: seq<nat> := [];
    for i := 0 to n
      invariant Built(levels, tree, children[..], parentTag[..], i)
      invariant IsPath(levels, stack, i)
      invariant if i == 0 then stack == [] else stack != [] && stack[|stack| - 1] == i - 1
    {
      ghost var kids, tags := children[..], parentTag[..];
      stack := Unwind(levels, stack, i);
      if stack == [] {
        BuiltRoot(levels, tree, kids, tags, i);
        tree := tree + [i];
        parentTag[i] := None;
        assert children[..] == kids && parentTag[..] == tags[i := None];
      } else {
        var parent := stack[|stack| - 1];
        BuiltChild(levels, tree, kids, tags, i, parent);
        children[parent] := children[parent] + [i];
        parentTag[i] := Some(levels[parent]);
        assert children[..] == kids[parent := kids[parent] + [i]] && parentTag[..] == tags[i := Some(levels[parent])];
      }
      Push(levels, stack, i, i + 1);
      stack := stack + [i];
    }
  }

  ghost predicate PathAt(levels: seq<int>, stack: seq<nat>, i: nat, t: nat)
    requires t < |stack|
  {
    stack[t] < i && stack[t] < |levels| && Parent(levels, stack[t]) == if t == 0 then -1 else stack[t - 1]
  }

  /** The stack is a chain of parents down from a root. */
  ghost predicate IsPath(levels: seq<int>, stack: seq<nat>, i: nat) {
    forall t :: 0 <= t < |stack| ==> PathAt(levels, stack, i, t)
  }

  lemma Pop(levels: seq<int>, stack: seq<nat>, i: nat)
    requires IsPath(levels, stack, i) && stack != []
    ensures IsPath(levels, stack[..|stack| - 1], i)
    ensures stack[|stack| - 1] < i && stack[|stack| - 1] < |levels|
    ensures Parent(levels, stack[|stack| - 1]) == if |stack| == 1 then -1 else stack[|stack| - 2]
  {
    var rest := stack[..|stack| - 1];
    assert PathAt(levels, stack, i, |stack| - 1);
    forall t | 0 <= t < |rest|
      ensures PathAt(levels, rest, i, t)
    {
      assert PathAt(levels, stack, i, t);
    }
  }

  lemma Push(levels: seq<int>, stack: seq<nat>, i: nat, j: nat)
    requires IsPath(levels, stack, i) && i < j && i < |levels|
    requires Parent(levels, i) == if stack == [] then -1 else stack[|stack| - 1]
    ensures IsPath(levels, stack + [i], j)
  {
    var more := stack + [i];
    forall t | 0 <= t < |more|
      ensures PathAt(levels, more, j, t)
    {
      if t < |stack| { assert PathAt(levels, stack, i, t); }
    }
  }

  // ---------------------------------------------------------------- forests

  /** A forest in first-child, next-sibling form; the tops are positions in the flat list. */
  datatype Forest = Empty | Tree(top: nat, children: Forest, siblings: Forest)

  function Preorder(f: Forest): seq<nat> {
    match f
    case Empty => []
    case Tree(top, children, siblings) => [top] + Preorder(children) + Preorder(siblings)
  }

  function Range(lo: nat, hi: nat): (r: seq<nat>)
    requires lo <= hi
    ensures |r| == hi - lo && forall k :: 0 <= k < hi - lo ==> r[k] == lo + k
  {
    seq(hi - lo, k requires 0 <= k => lo + k)
  }

  /** Every tree's root is above this level. */
  ghost predicate RootsAbove(levels: seq<int>, f: Forest, x: int) {
    f.Tree? ==> f.top < |levels| && levels[f.top] > x && RootsAbove(levels, f.siblings, x)
  }

  /** Children lie deeper than their parent; siblings never get deeper. */
  ghost predicate IsOutline(levels: seq<int>, f: Forest) {
    match f
    case Empty => true
    case Tree(top, children, siblings) =>
      && top < |levels|
      && IsOutline(levels, children) && IsOutline(levels, siblings)
      && RootsAbove(levels, children, levels[top])
      && (siblings.Tree? ==> siblings.top < |levels| && levels[siblings.top] <= levels[top])
  }

  /** The forest that the children lists describe. */
  ghost function Grown(levels: seq<int>, ids: seq<nat>): Forest
    requires Ascending(ids) && forall i :: 0 <= i < |ids| ==> ids[i] < |levels|
    decreases if ids == [] then 0 else |levels| - ids[0]
  {
    if ids == [] then Empty
    else
      KidsBounds(levels, ids[0], 0, |levels|);
      KidsAscend(levels, ids[0], 0, |levels|);
      Tree(ids[0], Grown(levels, Kids(levels, ids[0], 0, |levels|)), Grown(levels, ids[1..]))
  }

  /** Where the headings under lo end: the first later one, below hi, that is not deeper. */
  ghost function End(levels: seq<int>, lo: nat, from: nat, hi: nat): (e: nat)
    requires lo < from <= hi <= |levels|
    ensures from <= e <= hi
    ensures forall j :: from <= j < e ==> levels[j] > levels[lo]
    ensures e < hi ==> levels[e] <= levels[lo]
    decreases hi - from
  {
    if from == hi || levels[from] <= levels[lo] then from else End(levels, lo, from + 1, hi)
  }

  /** The outline of a segment of the page, top down. */
  ghost function Outline(levels: seq<int>, lo: nat, hi: nat): Forest
    requires lo <= hi <= |levels|
    decreases hi - lo
  {
    if lo == hi then Empty
    else
      var e := End(levels, lo, lo + 1, hi);
      Tree(lo, Outline(levels, lo + 1, e), Outline(levels, e, hi))
  }

  lemma RangeJoins(lo: nat, mid: nat, hi: nat)
    requires lo < mid <= hi
    ensures [lo] + Range(lo + 1, mid) + Range(mid, hi) == Range(lo, hi)
  {
  }

  lemma {:induction false} OutlinePreorder(levels: seq<int>, lo: nat, hi: nat)
    requires lo <= hi <= |levels|
    ensures Preorder(Outline(levels, lo, hi)) == Range(lo, hi)
    decreases hi - lo
  {
    if lo < hi {
      var e := End(levels, lo, lo + 1, hi);
      var inner, outer := Outline(levels, lo + 1, e), Outline(levels, e, hi);
      OutlinePreorder(levels, lo + 1, e);
      OutlinePreorder(levels, e, hi);
      RangeJoins(lo, e, hi);
      assert Outline(levels, lo, hi) == Tree(lo, inner, outer);
    }
  }

  lemma {:induction false} OutlineFits(levels: seq<int>, lo: nat, hi: nat, x: int)
    requires lo <= hi <= |levels|
    ensures IsOutline(levels, Outline(levels, lo, hi))
    ensures (forall j :: lo <= j < hi ==> levels[j] > x) ==> RootsAbove(levels, Outline(levels, lo, hi), x)
    decreases hi - lo
  {
    if lo < hi {
      var e := End(levels, lo, lo + 1, hi);
      OutlineFits(levels, lo + 1, e, levels[lo]);
      OutlineFits(levels, e, hi, x);
    }
  }

  lemma {:induction false} AboveAll(levels: seq<int>, f: Forest, x: int, k: nat)
    requires IsOutline(levels, f) && RootsAbove(levels, f, x) && k in Preorder(f)
    ensures k < |levels| && levels[k] > x
  {
    if k != f.top {
      if k in Preorder(f.children) {
        AboveAll(levels, f.children, levels[f.top], k);
      } else {
        AboveAll(levels, f.siblings, x, k);
      }
    }
  }

  lemma RangeParts(inner: seq<nat>, outer: seq<nat>, top: nat, lo: nat, hi: nat)
    requires lo <= hi && [top] + inner + outer == Range(lo, hi)
    ensures top == lo && lo + 1 + |inner| <= hi
    ensures inner == Range(lo + 1, lo + 1 + |inner|) && outer == Range(lo + 1 + |inner|, hi)
  {
    var pre := [top] + inner + outer;
    assert |pre| == 1 + |inner| + |outer|;
    assert pre[0] == top;
    assert inner == pre[1..1 + |inner|];
    assert outer == pre[1 + |inner|..];
  }

  /** A segment has only one outline. */
  lemma {:induction false} OutlineUnique(levels: seq<int>, f: Forest, lo: nat, hi: nat)
    requires lo <= hi <= |levels| && IsOutline(levels, f) && Preorder(f) == Range(lo, hi)
    ensures f == Outline(levels, lo, hi)
    decreases hi - lo
  {
    if f.Tree? {
      var inner, outer := Preorder(f.children), Preorder(f.siblings);
      RangeParts(inner, outer, f.top, lo, hi);
      var m := lo + 1 + |inner|;
      FirstTreeEnds(levels, f, lo, hi, m);
      OutlineUnique(levels, f.children, lo + 1, m);
      OutlineUnique(levels, f.siblings, m, hi);
    } else {
      assert |Range(lo, hi)| == 0;
    }
  }

  /** The first tree of an outline takes exactly the deeper headings that follow its root. */
  lemma FirstTreeEnds(levels: seq<int>, f: Forest, lo: nat, hi: nat, m: nat)
    requires lo < m <= hi <= |levels| && IsOutline(levels, f) && f.Tree? && f.top == lo
    requires Preorder(f.children) == Range(lo + 1, m) && Preorder(f.siblings) == Range(m, hi)
    ensures m == End(levels, lo, lo + 1, hi)
  {
    forall j | lo + 1 <= j < m
      ensures levels[j] > levels[lo]
    {
      assert Preorder(f.children)[j - (lo + 1)] == j;
      AboveAll(levels, f.children, levels[lo], j);
    }
    if m < hi {
      assert Preorder(f.siblings)[0] == m == f.siblings.top;
    }
  }

  lemma {:induction false} KidsSplit(levels: seq<int>, p: int, lo: nat, mid: nat, hi: nat)
    requires lo <= mid <= hi <= |levels|
    ensures Kids(levels, p, lo, hi) == Kids(levels, p, lo, mid) + Kids(levels, p, mid, hi)
  {
    if mid < hi { KidsSplit(levels, p, lo, mid, hi - 1); }
  }

  lemma {:induction false} NoKids(levels: seq<int>, p: int, lo: nat, hi: nat)
    requires lo <= hi <= |levels| && forall j :: lo <= j < hi ==> Parent(levels, j) != p
    ensures Kids(levels, p, lo, hi) == []
  {
    if lo < hi { NoKids(levels, p, lo, hi - 1); }
  }

  /** Heading j's parent is p or in the segment if j is in it, and outside it if j comes after it. */
  ghost predicate ClosedAt(levels: seq<int>, p: int, lo: nat, hi: nat, j: nat) {
    j < |levels| ==>
      && (lo <= j < hi ==> Parent(levels, j) == p || Parent(levels, j) >= lo)
      && (hi <= j ==> Parent(levels, j) < lo || Parent(levels, j) >= hi)
  }

  /** No heading outside a segment, nor of another parent, has its parent in the segment. */
  ghost predicate Closed(levels: seq<int>, p: int, lo: nat, hi: nat) {
    p < lo <= hi <= |levels| && forall j :: ClosedAt(levels, p, lo, hi, j)
  }

  lemma SplitClosed(levels: seq<int>, p: int, lo: nat, hi: nat)
    requires Closed(levels, p, lo, hi) && lo < hi
    ensures var e := End(levels, lo, lo + 1, hi);
            && Closed(levels, lo, lo + 1, e) && Closed(levels, p, e, hi)
            && Parent(levels, lo) == p
            && (forall j :: lo < j < e ==> Parent(levels, j) != p)
            && (forall j :: e <= j < |levels| ==> Parent(levels, j) != lo)
  {
    var e, inner := End(levels, lo, lo + 1, hi), lo + 1;
    assert ClosedAt(levels, p, lo, hi, lo);
    forall j: nat
      ensures lo < j < e ==> Parent(levels, j) >= lo
      ensures e <= j < |levels| ==> Parent(levels, j) < lo || Parent(levels, j) >= e
      ensures ClosedAt(levels, lo, inner, e, j) && ClosedAt(levels, p, e, hi, j)
    {
      assert ClosedAt(levels, p, lo, hi, j);
      assert lo < j < e ==> levels[lo] < levels[j];
    }
  }

  lemma FirstKid(levels: seq<int>, p: int, lo: nat, e: nat)
    requires lo < e <= |levels| && Parent(levels, lo) == p
    requires forall j :: lo < j < e ==> Parent(levels, j) != p
    ensures Kids(levels, p, lo, e) == [lo]
  {
    KidsSplit(levels, p, lo, lo + 1, e);
    NoKids(levels, p, lo + 1, e);
    OneKid(levels, p, lo);
    assert Kids(levels, p, lo, e) == [lo] + [];
  }

  lemma OneKid(levels: seq<int>, p: int, k: nat)
    requires k < |levels| && Parent(levels, k) == p
    ensures Kids(levels, p, k, k + 1) == [k]
  {
  }

  /** All children of the first heading of a closed segment lie in its part of the segment. */
  lemma OwnKids(levels: seq<int>, lo: nat, e: nat)
    requires lo < e <= |levels| && forall j :: e <= j < |levels| ==> Parent(levels, j) != lo
    ensures Kids(levels, lo, 0, |levels|) == Kids(levels, lo, lo + 1, e)
  {
    KidsSplit(levels, lo, 0, lo + 1, |levels|);
    KidsSplit(levels, lo, lo + 1, e, |levels|);
    NoKids(levels, lo, 0, lo + 1);
    NoKids(levels, lo, e, |levels|);
  }

  ghost function GrownKids(levels: seq<int>, p: int, lo: nat, hi: nat): Forest
    requires lo <= hi <= |levels|
  {
    KidsBounds(levels, p, lo, hi);
    KidsAscend(levels, p, lo, hi);
    Grown(levels, Kids(levels, p, lo, hi))
  }

  lemma GrownKidsSplit(levels: seq<int>, p: int, lo: nat, e: nat, hi: nat)
    requires lo < e <= hi <= |levels|
    requires Kids(levels, p, lo, hi) == [lo] + Kids(levels, p, e, hi)
    requires Kids(levels, lo, 0, |levels|) == Kids(levels, lo, lo + 1, e)
    ensures GrownKids(levels, p, lo, hi) == Tree(lo, GrownKids(levels, lo, lo + 1, e), GrownKids(levels, p, e, hi))
  {
    assert Kids(levels, p, lo, hi)[1..] == Kids(levels, p, e, hi);
  }

  /** In a closed segment the first child of p and what follows it are closed segments of their own. */
  lemma GrownFirst(levels: seq<int>, p: int, lo: nat, hi: nat, e: nat)
    requires lo < hi && Closed(levels, p, lo, hi) && e == End(levels, lo, lo + 1, hi)
    ensures Closed(levels, lo, lo + 1, e) && Closed(levels, p, e, hi)
    ensures GrownKids(levels, p, lo, hi) == Tree(lo, GrownKids(levels, lo, lo + 1, e), GrownKids(levels, p, e, hi))
  {
    SplitClosed(levels, p, lo, hi);
    KidsSplit(levels, p, lo, e, hi);
    FirstKid(levels, p, lo, e);
    OwnKids(levels, lo, e);
    GrownKidsSplit(levels, p, lo, e, hi);
  }

  lemma EmptySegment(levels: seq<int>, p: int, lo: nat)
    requires lo <= |levels|
    ensures GrownKids(levels, p, lo, lo) == Outline(levels, lo, lo) == Empty
  {
    KidsBounds(levels, p, lo, lo);
    KidsAscend(levels, p, lo, lo);
  }

  /** A function g of segments builds this one from its first heading, the part below it and the rest. */
  ghost predicate BuildsAt(levels: seq<int>, g: (int, nat, nat) -> Forest, p: int, lo: nat, hi: nat) {
    Closed(levels, p, lo, hi) ==>
      if lo == hi then g(p, lo, hi) == Empty
      else
        var e := End(levels, lo, lo + 1, hi);
        g(p, lo, hi) == Tree(lo, g(lo, lo + 1, e), g(p, e, hi))
  }

  lemma {:induction false} BuiltSoIsOutline(levels: seq<int>, g: (int, nat, nat) -> Forest, p: int, lo: nat, hi: nat)
    requires Closed(levels, p, lo, hi)
    requires forall q, from, to :: BuildsAt(levels, g, q, from, to)
    ensures g(p, lo, hi) == Outline(levels, lo, hi)
    decreases hi - lo
  {
    assert BuildsAt(levels, g, p, lo, hi);
    if lo < hi {
      var e := End(levels, lo, lo + 1, hi);
      SplitClosed(levels, p, lo, hi);
      BuiltSoIsOutline(levels, g, lo, lo + 1, e);
      BuiltSoIsOutline(levels, g, p, e, hi);
    }
  }

  ghost function Growth(levels: seq<int>): (int, nat, nat) -> Forest {
    (p: int, lo: nat, hi: nat) => if lo <= hi <= |levels| then GrownKids(levels, p, lo, hi) else Empty
  }

  lemma GrowthIs(levels: seq<int>, p: int, lo: nat, hi: nat, f: Forest)
    requires lo <= hi <= |levels| && f == GrownKids(levels, p, lo, hi)
    ensures Growth(levels)(p, lo, hi) == f
  {
  }

  lemma GrowthOfMore(levels: seq<int>, p: int, lo: nat, hi: nat) returns (inner: Forest, outer: Forest)
    requires lo < hi && Closed(levels, p, lo, hi)
    ensures
      var e := End(levels, lo, lo + 1, hi);
      && Growth(levels)(lo, lo + 1, e) == inner && Growth(levels)(p, e, hi) == outer
      && Growth(levels)(p, lo, hi) == Tree(lo, inner, outer)
  {
    var e := End(levels, lo, lo + 1, hi);
    GrownFirst(levels, p, lo, hi, e);
    inner, outer := GrownKids(levels, lo, lo + 1, e), GrownKids(levels, p, e, hi);
    GrowthIs(levels, lo, lo + 1, e, inner);
    GrowthIs(levels, p, e, hi, outer);
    GrowthIs(levels, p, lo, hi, Tree(lo, inner, outer));
  }

  lemma GrowthBuilds(levels: seq<int>, p: int, lo: nat, hi: nat)
    ensures BuildsAt(levels, Growth(levels), p, lo, hi)
  {
    if Closed(levels, p, lo, hi) {
      if lo == hi {
        EmptySegment(levels, p, lo);
      } else {
        var inner, outer := GrowthOfMore(levels, p, lo, hi);
      }
    }
  }

  /** In a closed segment the children of p grow into the segment's outline. */
  lemma GrownIsOutline(levels: seq<int>, p: int, lo: nat, hi: nat)
    requires Closed(levels, p, lo, hi)
    ensures GrownKids(levels, p, lo, hi) == Outline(levels, lo, hi)
  {
    forall q: int, from: nat, to: nat
      ensures BuildsAt(levels, Growth(levels), q, from, to)
    {
      GrowthBuilds(levels, q, from, to);
    }
    BuiltSoIsOutline(levels, Growth(levels), p, lo, hi);
  }

  // ---------------------------------------------------------------- the results

  ghost function BuiltForest(levels: seq<int>): Forest {
    GrownKids(levels, -1, 0, |levels|)
  }

  /** The forest that BuildTree's lists describe reads, in preorder, as the flat heading list; every
      child lies deeper than its parent and siblings never get deeper; and it is the only such forest. */
  lemma TreeIsTheOutline(levels: seq<int>, f: Forest)
    ensures f == BuiltForest(levels) <==> IsOutline(levels, f) && Preorder(f) == Range(0, |levels|)
  {
    GrownIsOutline(levels, -1, 0, |levels|);
    OutlinePreorder(levels, 0, |levels|);
    OutlineFits(levels, 0, |levels|, 0);
    if IsOutline(levels, f) && Preorder(f) == Range(0, |levels|) {
      OutlineUnique(levels, f, 0, |levels|);
    }
  }

  /** Some heading skips a level with respect to the one before it exactly when some parent-child
      edge of the tree spans more than one level. */
  lemma SkipsAreWideEdges(levels: seq<int>)
    ensures (exists j :: 0 <= j < |levels| && Skips(levels, j)) <==>
            (exists j :: 0 <= j < |levels| && WideEdge(levels, j))
  {
    if j :| 0 <= j < |levels| && Skips(levels, j) {
      assert Parent(levels, j) == j - 1;
      assert WideEdge(levels, j);
    }
    if j :| 0 <= j < |levels| && WideEdge(levels, j) {
      var p := Parent(levels, j);
      assert levels[p + 1] >= levels[j];
      assert Skips(levels, p + 1);
    }
  }

  ghost predicate WideEdge(levels: seq<int>, j: nat)
    requires j < |levels|
  {
    Parent(levels, j) >= 0 && levels[j] > levels[Parent(levels, j)] + 1
  }
}
