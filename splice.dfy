/**
 * The tree the reconstructor builds, as a pure function of the original
 * tree, the path and the new literal content, and what that tree is:
 * the original with exactly one string literal swapped for a fresh one.
 */
module Splice {
  import opened Wrappers
  import opened SyntaxTree

  /** `create_replacement_string_node`: a string-literal node made of an
      opening quote, the content verbatim (never escaped) and a closing quote. */
  function StringLeaf(v: string): (leaf: Tree)
    ensures leaf.kind == NodeString && |leaf.children| == 3
    ensures Text(leaf) == "\"" + v + "\""
  {
    var leaf := Node(NodeString, [T(TokenStringStart, "\""), T(TokenStringContent, v), T(TokenStringEnd, "\"")]);
    assert TextBetween(leaf, 0, 1) == "\"";
    assert TextBetween(leaf, 0, 2) == "\"" + v;
    leaf
  }

  /**
   * The tree the reconstructor emits for `t` when `path` is what is left of
   * the target path at `t`.  An empty path on a string literal yields the
   * fresh leaf; an empty path on any other node copies it; otherwise node
   * children are numbered (tokens skipped) and the one numbered `path[0]`
   * is rebuilt with the rest of the path while everything else is copied.
   */
  function Replace(t: Tree, path: seq<nat>, v: string): Tree
    decreases t, |t.children| + 1
  {
    if path == [] then
      if t.kind == NodeString then StringLeaf(v) else t
    else
      Node(t.kind, ReplaceUpTo(t, path, v, |t.children|))
  }

  /** The rebuilt children `0 .. i-1` of `t` while the target path continues below `t`. */
  function ReplaceUpTo(t: Tree, path: seq<nat>, v: string, i: nat): seq<Elem>
    requires path != [] && i <= |t.children|
    decreases t, i
  {
    if i == 0 then []
    else
      ReplaceUpTo(t, path, v, i - 1) +
      match t.children[i - 1]
      case T(k, s) => [T(k, s)]
      case N(c) =>
        [N(if NodeCount(t.children[..i - 1]) == path[0] then Replace(c, path[1..], v) else c)]
  }

  /** Whether `path` leads through `t` to a string literal. */
  predicate AddressesString(t: Tree, path: seq<nat>)
  {
    At(t, path).Some? && At(t, path).value.kind == NodeString
  }

  /** Child `i` is a node with `k` nodes before it exactly when it is the node numbered `k`. */
  lemma NumberedNode(cs: seq<Elem>, k: nat, i: nat)
    requires i < |cs|
    ensures (cs[i].N? && NodeCount(cs[..i]) == k) <==> (k < NodeCount(cs) && i == NodePos(cs, k))
  {
    if cs[i].N? && NodeCount(cs[..i]) == k {
      assert cs[..i + 1] == cs[..i] + [cs[i]];
      NodeCountAppend(cs[..i], cs[i]);
      NodeCountPrefix(cs, i + 1, |cs|);
      assert cs[..|cs|] == cs;
      NodePosUnique(cs, k, i);
    }
  }

  /**
   * Below a node the rebuilt children are the original children, except the
   * one node child numbered `path[0]` (if there is one), which is rebuilt
   * with the rest of the path.
   */
  lemma {:induction false} ReplaceUpToSingleSite(t: Tree, path: seq<nat>, v: string, i: nat)
    requires path != [] && i <= |t.children|
    ensures |ReplaceUpTo(t, path, v, i)| == i
    ensures forall j :: 0 <= j < i && !(path[0] < NodeCount(t.children) && j == NodePos(t.children, path[0])) ==>
              ReplaceUpTo(t, path, v, i)[j] == t.children[j]
    ensures path[0] < NodeCount(t.children) && NodePos(t.children, path[0]) < i ==>
              ReplaceUpTo(t, path, v, i)[NodePos(t.children, path[0])] == N(Replace(NodeChild(t, path[0]), path[1..], v))
    decreases i
  {
    if i > 0 {
      ReplaceUpToSingleSite(t, path, v, i - 1);
      ReplaceUpToLast(t, path, v, i);
    }
  }

  /** The last rebuilt child: the rebuilt node if it is the one numbered `path[0]`, a copy otherwise. */
  lemma ReplaceUpToLast(t: Tree, path: seq<nat>, v: string, i: nat)
    requires path != [] && 0 < i <= |t.children|
    ensures var cs := t.children;
            ReplaceUpTo(t, path, v, i) ==
              ReplaceUpTo(t, path, v, i - 1) +
              [if path[0] < NodeCount(cs) && i - 1 == NodePos(cs, path[0])
               then N(Replace(NodeChild(t, path[0]), path[1..], v)) else cs[i - 1]]
  {
    NumberedNode(t.children, path[0], i - 1);
  }

  /** The children of a rebuilt node: the original ones with one node child swapped at most. */
  lemma ReplaceChildren(t: Tree, path: seq<nat>, v: string)
    requires path != []
    ensures path[0] < NodeCount(t.children) ==>
              Replace(t, path, v) ==
                Node(t.kind, t.children[NodePos(t.children, path[0]) :=
                                        N(Replace(NodeChild(t, path[0]), path[1..], v))])
    ensures path[0] >= NodeCount(t.children) ==> Replace(t, path, v) == t
  {
    ReplaceUpToSingleSite(t, path, v, |t.children|);
  }

  /**
   * A path that does not end on a string literal -- it ends on another kind
   * of node, or one of its indices exceeds the node-child count -- rebuilds
   * an exact copy of the tree.
   */
  lemma {:induction false} ReplaceElsewhereIsCopy(t: Tree, path: seq<nat>, v: string)
    requires !AddressesString(t, path)
    ensures Replace(t, path, v) == t
    decreases t
  {
    if path != [] {
      ReplaceChildren(t, path, v);
      if path[0] < NodeCount(t.children) {
        var j := NodePos(t.children, path[0]);
        ReplaceElsewhereIsCopy(NodeChild(t, path[0]), path[1..], v);
        assert t.children[j := N(NodeChild(t, path[0]))] == t.children;
      }
    }
  }

  /** The text of `t` that comes before the node `path` addresses. */
  function Before(t: Tree, path: seq<nat>): string
    decreases t
  {
    if path == [] || path[0] >= NodeCount(t.children) then ""
    else TextBetween(t, 0, NodePos(t.children, path[0])) + Before(NodeChild(t, path[0]), path[1..])
  }

  /** The text of `t` that comes after the node `path` addresses. */
  function After(t: Tree, path: seq<nat>): string
    decreases t
  {
    if path == [] || path[0] >= NodeCount(t.children) then ""
    else After(NodeChild(t, path[0]), path[1..]) +
         TextBetween(t, NodePos(t.children, path[0]) + 1, |t.children|)
  }

  /** The text of `t` is the text before child `j`, that child's, and the text after it. */
  lemma TextAroundChild(t: Tree, j: nat)
    requires j < |t.children|
    ensures Text(t) == TextBetween(t, 0, j) + ChildText(t, j) + TextBetween(t, j + 1, |t.children|)
  {
    TextBetweenSplit(t, 0, j, |t.children|);
    TextBetweenSplit(t, j, j + 1, |t.children|);
  }

  /** Rendering a node whose children are `t`'s with child `j` swapped for `c'`. */
  lemma TextWithChild(t: Tree, j: nat, c': Tree)
    requires j < |t.children|
    ensures Text(Node(t.kind, t.children[j := N(c')])) ==
              TextBetween(t, 0, j) + Text(c') + TextBetween(t, j + 1, |t.children|)
  {
    var u := Node(t.kind, t.children[j := N(c')]);
    var n := |t.children|;
    TextAroundChild(u, j);
    assert t.children[0..j] == u.children[0..j];
    assert t.children[j + 1..n] == u.children[j + 1..n];
    TextBetweenSameChildren(t, u, 0, j);
    TextBetweenSameChildren(t, u, j + 1, n);
    assert ChildText(u, j) == Text(c');
  }

  /** Regrouping the text around an addressed node; kept as a lemma so that
      the recursive proofs below see one equation instead of the whole
      associativity reasoning over their symbolic pieces. */
  lemma Regroup(pre: string, b: string, s: string, a: string, post: string)
    ensures pre + (b + s + a) + post == (pre + b) + s + (a + post)
    ensures pre + (b + "\"" + s + "\"" + a) + post == (pre + b) + "\"" + s + "\"" + (a + post)
  {
  }

  /** The rendered text of a tree around the node a path addresses. */
  lemma {:induction false} TextAroundAddressed(t: Tree, path: seq<nat>)
    requires At(t, path).Some?
    ensures Text(t) == Before(t, path) + Text(At(t, path).value) + After(t, path)
    decreases t
  {
    if path != [] {
      var c := NodeChild(t, path[0]);
      var j := NodePos(t.children, path[0]);
      TextAroundAddressed(c, path[1..]);
      TextAroundChild(t, j);
      var pre, post := TextBetween(t, 0, j), TextBetween(t, j + 1, |t.children|);
      var s := Text(At(c, path[1..]).value);
      assert Text(t) == pre + Text(c) + post;
      assert At(t, path) == At(c, path[1..]);
      Regroup(pre, Before(c, path[1..]), s, After(c, path[1..]), post);
    }
  }

  /**
   * Splicing at a string literal: the rendered text before and after the
   * addressed literal is kept byte for byte and the literal's own text
   * becomes `"` + v + `"`.
   */
  lemma {:induction false} ReplaceSplice(t: Tree, path: seq<nat>, v: string)
    requires AddressesString(t, path)
    ensures Text(t) == Before(t, path) + Text(At(t, path).value) + After(t, path)
    ensures Text(Replace(t, path, v)) == Before(t, path) + "\"" + v + "\"" + After(t, path)
    decreases t
  {
    TextAroundAddressed(t, path);
    if path != [] {
      var c := NodeChild(t, path[0]);
      var j := NodePos(t.children, path[0]);
      var c' := Replace(c, path[1..], v);
      ReplaceSplice(c, path[1..], v);
      ReplaceChildren(t, path, v);
      TextWithChild(t, j, c');
      var pre, post := TextBetween(t, 0, j), TextBetween(t, j + 1, |t.children|);
      assert Text(Replace(t, path, v)) == pre + Text(c') + post;
      assert Before(t, path) == pre + Before(c, path[1..]);
      assert After(t, path) == After(c, path[1..]) + post;
      Regroup(pre, Before(c, path[1..]), v, After(c, path[1..]), post);
    }
  }

  /** After splicing, the same path addresses the fresh leaf. */
  lemma {:induction false} ReplaceSpliceAt(t: Tree, path: seq<nat>, v: string)
    requires AddressesString(t, path)
    ensures At(Replace(t, path, v), path) == Some(StringLeaf(v))
    decreases t
  {
    if path != [] {
      var c := NodeChild(t, path[0]);
      var j := NodePos(t.children, path[0]);
      var c' := Replace(c, path[1..], v);
      ReplaceSpliceAt(c, path[1..], v);
      ReplaceChildren(t, path, v);
      var u := Replace(t, path, v);
      NodeCountSwap(t.children, j, c');
      NodePosUnique(u.children, path[0], j);
      assert NodeChild(u, path[0]) == c';
    }
  }

  /** Swapping one node child for another node keeps the node-only numbering. */
  lemma NodeCountSwap(cs: seq<Elem>, j: nat, c': Tree)
    requires j < |cs| && cs[j].N?
    ensures NodeCount(cs[j := N(c')]) == NodeCount(cs)
    ensures NodeCount(cs[j := N(c')][..j]) == NodeCount(cs[..j])
  {
    var ds := cs[j := N(c')];
    assert ds[..j] == cs[..j];
    NodeCountSameShape(cs, ds);
  }

  lemma {:induction false} NodeCountSameShape(cs: seq<Elem>, ds: seq<Elem>)
    requires |cs| == |ds| && forall i :: 0 <= i < |cs| ==> cs[i].N? == ds[i].N?
    ensures NodeCount(cs) == NodeCount(ds)
  {
    if cs != [] {
      NodeCountSameShape(cs[..|cs| - 1], ds[..|ds| - 1]);
    }
  }
}
