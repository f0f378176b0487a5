/**
 * The locator: a pre-order, short-circuiting search for the first string
 * literal whose rendered text contains a target, returning its path of
 * node-only child indices.
 */
module Locator {
  import opened Wrappers
  import opened Strings
  import opened SyntaxTree

  /** A string-literal node whose rendered text, quotes included, contains `target`. */
  predicate IsMatch(t: Tree, target: string)
  {
    t.kind == NodeString && Contains(Text(t), target)
  }

  /** `path` addresses a matching string literal inside `t`. */
  ghost predicate MatchAt(t: Tree, path: seq<nat>, target: string)
  {
    At(t, path).Some? && IsMatch(At(t, path).value, target)
  }

  /**
   * Document (pre-)order on paths: an ancestor comes before its descendants,
   * and an earlier sibling's subtree before a later sibling's.
   */
  predicate PreorderLe(q: seq<nat>, p: seq<nat>)
  {
    q == [] || (p != [] && (q[0] < p[0] || (q[0] == p[0] && PreorderLe(q[1..], p[1..]))))
  }

  /** `find_url_string_path`: the node itself if it matches, else the first
      node child (tokens skipped) whose subtree holds a match. */
  function FindUrlStringPath(t: Tree, target: string): Option<seq<nat>>
    decreases t, NodeCount(t.children) + 1
  {
    if IsMatch(t, target) then Some([])
    else FindInChildren(t, target, 0)
  }

  /** The loop over `children().enumerate()` from node child `k` on. */
  function FindInChildren(t: Tree, target: string, k: nat): Option<seq<nat>>
    requires k <= NodeCount(t.children)
    decreases t, NodeCount(t.children) - k
  {
    if k == NodeCount(t.children) then None
    else
      match FindUrlStringPath(NodeChild(t, k), target)
      case Some(p) => Some([k] + p)
      case None => FindInChildren(t, target, k + 1)
  }

  /**
   * What the locator returns is a match, and it comes first in document
   * order among all matches of the tree.
   */
  lemma {:induction false} FindIsFirstMatch(t: Tree, target: string)
    ensures FindUrlStringPath(t, target).Some? ==>
              MatchAt(t, FindUrlStringPath(t, target).value, target)
    ensures forall p :: MatchAt(t, p, target) ==>
              FindUrlStringPath(t, target).Some? && PreorderLe(FindUrlStringPath(t, target).value, p)
    decreases t, NodeCount(t.children) + 1
  {
    if !IsMatch(t, target) {
      FindInChildrenSound(t, target, 0);
      forall p | MatchAt(t, p, target)
        ensures FindUrlStringPath(t, target).Some? && PreorderLe(FindUrlStringPath(t, target).value, p)
      {
        FindInChildrenFirst(t, target, 0, p);
      }
    }
  }

  lemma {:induction false} FindInChildrenSound(t: Tree, target: string, k: nat)
    requires k <= NodeCount(t.children)
    ensures FindInChildren(t, target, k).Some? ==>
              MatchAt(t, FindInChildren(t, target, k).value, target)
    decreases t, NodeCount(t.children) - k
  {
    if k < NodeCount(t.children) {
      var c := NodeChild(t, k);
      FindIsFirstMatch(c, target);
      match FindUrlStringPath(c, target)
      case Some(p) =>
        assert ([k] + p)[1..] == p;
      case None =>
        FindInChildrenSound(t, target, k + 1);
    }
  }

  lemma {:induction false} FindInChildrenFirst(t: Tree, target: string, k: nat, p: seq<nat>)
    requires MatchAt(t, p, target) && p != [] && k <= p[0]
    ensures p[0] < NodeCount(t.children)
    ensures FindInChildren(t, target, k).Some? && PreorderLe(FindInChildren(t, target, k).value, p)
    decreases t, NodeCount(t.children) - k
  {
    var c := NodeChild(t, k);
    FindIsFirstMatch(c, target);
    match FindUrlStringPath(c, target)
    case Some(q) =>
      if k == p[0] {
        assert MatchAt(c, p[1..], target);
        assert ([k] + q)[1..] == q;
      }
    case None =>
      if k == p[0] {
        assert MatchAt(c, p[1..], target);
        assert false;
      }
      FindInChildrenFirst(t, target, k + 1, p);
  }

  /** The locator finds nothing exactly when no string literal anywhere in
      the tree contains the target. */
  lemma FindNoneIffNoMatch(t: Tree, target: string)
    ensures FindUrlStringPath(t, target).None? <==> forall p :: !MatchAt(t, p, target)
  {
    FindIsFirstMatch(t, target);
  }

  /** Document order is antisymmetric, so the first match is unique. */
  lemma {:induction false} PreorderLeAntisymmetric(q: seq<nat>, p: seq<nat>)
    requires PreorderLe(q, p) && PreorderLe(p, q)
    ensures q == p
  {
    if q != [] && p != [] {
      PreorderLeAntisymmetric(q[1..], p[1..]);
      assert q == [q[0]] + q[1..] && p == [p[0]] + p[1..];
    }
  }
}
