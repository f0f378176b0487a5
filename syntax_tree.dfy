/**
 * The lossless syntax tree the editor works on: every character of the
 * document sits in exactly one token, and nodes only group tokens and other
 * nodes in source order.  Node and token kinds share one enumeration.
 */
module SyntaxTree {

  import opened Wrappers

  /** Grammar kinds.  Only the string literal and its three tokens matter to
      the core; every other grammar kind is kept by name. */
  datatype Kind =
    | NodeString
    | TokenStringStart
    | TokenStringContent
    | TokenStringEnd
    | Other(name: string)

  datatype Tree = Node(kind: Kind, children: seq<Elem>)

  /** A child is either a node or a token carrying its exact source text. */
  datatype Elem = N(node: Tree) | T(kind: Kind, text: string)

  /** The rendered text of a tree: the concatenation of all its token texts. */
  function Text(t: Tree): string
    decreases t, |t.children| + 1
  {
    TextBetween(t, 0, |t.children|)
  }

  /** The rendered text of the children `lo .. hi-1` of `t`. */
  function TextBetween(t: Tree, lo: nat, hi: nat): string
    requires lo <= hi <= |t.children|
    decreases t, hi
  {
    if hi == lo then ""
    else
      TextBetween(t, lo, hi - 1) +
      match t.children[hi - 1]
      case N(c) => Text(c)
      case T(_, s) => s
  }

  /** The text one child contributes. */
  function ChildText(t: Tree, i: nat): (s: string)
    requires i < |t.children|
    ensures s == TextBetween(t, i, i + 1)
  {
    match t.children[i]
    case N(c) => Text(c)
    case T(_, s) => s
  }

  lemma {:induction false} TextBetweenSplit(t: Tree, lo: nat, mid: nat, hi: nat)
    requires lo <= mid <= hi <= |t.children|
    ensures TextBetween(t, lo, hi) == TextBetween(t, lo, mid) + TextBetween(t, mid, hi)
    decreases hi
  {
    if hi > mid {
      TextBetweenSplit(t, lo, mid, hi - 1);
    }
  }

  /** Children that are equal position by position render equally. */
  lemma {:induction false} TextBetweenSameChildren(t: Tree, u: Tree, lo: nat, hi: nat)
    requires lo <= hi <= |t.children| && hi <= |u.children|
    requires t.children[lo..hi] == u.children[lo..hi]
    ensures TextBetween(t, lo, hi) == TextBetween(u, lo, hi)
    decreases hi
  {
    if hi > lo {
      assert t.children[hi - 1] == t.children[lo..hi][hi - 1 - lo];
      assert t.children[lo..hi - 1] == t.children[lo..hi][..hi - 1 - lo];
      assert u.children[lo..hi - 1] == u.children[lo..hi][..hi - 1 - lo];
      TextBetweenSameChildren(t, u, lo, hi - 1);
    }
  }

  /** Number of node children (tokens are not counted) among `cs`. */
  function NodeCount(cs: seq<Elem>): nat
  {
    if cs == [] then 0
    else NodeCount(cs[..|cs| - 1]) + (if cs[|cs| - 1].N? then 1 else 0)
  }

  lemma {:induction false} NodeCountAppend(cs: seq<Elem>, e: Elem)
    ensures NodeCount(cs + [e]) == NodeCount(cs) + (if e.N? then 1 else 0)
  {
    assert (cs + [e])[..|cs|] == cs;
  }

  lemma {:induction false} NodeCountPrefix(cs: seq<Elem>, i: nat, j: nat)
    requires i <= j <= |cs|
    ensures NodeCount(cs[..i]) <= NodeCount(cs[..j])
    decreases j
  {
    if j > i {
      assert cs[..j - 1] == cs[..j][..j - 1];
      NodeCountPrefix(cs, i, j - 1);
    }
  }

  /**
   * Position in `cs` of the node child with node-only index `k`: the element
   * there is a node and exactly `k` nodes come before it.
   */
  function NodePos(cs: seq<Elem>, k: nat): (j: nat)
    requires k < NodeCount(cs)
    ensures j < |cs| && cs[j].N? && NodeCount(cs[..j]) == k
    decreases |cs|
  {
    var last := |cs| - 1;
    assert cs[..last] == cs[..|cs| - 1];
    if k < NodeCount(cs[..last]) then
      var j := NodePos(cs[..last], k);
      assert cs[..last][..j] == cs[..j];
      j
    else
      last
  }

  /** Only the node child at `NodePos(cs, k)` has node-only index `k`. */
  lemma {:induction false} NodePosUnique(cs: seq<Elem>, k: nat, i: nat)
    requires k < NodeCount(cs)
    requires i < |cs| && cs[i].N? && NodeCount(cs[..i]) == k
    ensures i == NodePos(cs, k)
  {
    var j := NodePos(cs, k);
    if i < j {
      NodeCountPrefix(cs, i + 1, j);
      assert cs[..i + 1] == cs[..i] + [cs[i]];
      NodeCountAppend(cs[..i], cs[i]);
      assert false;
    } else if j < i {
      NodeCountPrefix(cs, j + 1, i);
      assert cs[..j + 1] == cs[..j] + [cs[j]];
      NodeCountAppend(cs[..j], cs[j]);
      assert false;
    }
  }

  /** The `k`-th node child of `t` (node-only numbering, from 0). */
  function NodeChild(t: Tree, k: nat): (c: Tree)
    requires k < NodeCount(t.children)
    ensures c == t.children[NodePos(t.children, k)].node
    ensures exists j :: 0 <= j < |t.children| && t.children[j] == N(c) && NodeCount(t.children[..j]) == k
    ensures c < t
  {
    t.children[NodePos(t.children, k)].node
  }

  /**
   * The node a path addresses: each index selects a node child, tokens
   * skipped; the empty path addresses `t` itself.  None when an index is out
   * of range.
   */
  function At(t: Tree, path: seq<nat>): Option<Tree>
    decreases t
  {
    if path == [] then Some(t)
    else if path[0] < NodeCount(t.children) then At(NodeChild(t, path[0]), path[1..])
    else None
  }
}
