/**
 * The reconstructor: it walks the original tree in source order and drives
 * the builder, copying every token verbatim, deep-copying every node child
 * off the target path, and emitting a fresh string literal at the end of it.
 */
module Reconstruct {
  import opened Wrappers
  import opened SyntaxTree
  import opened Splice
  import opened GreenBuilder

  /** The tree `reconstruct_with_replacement` emits for `node` at `depth`:
      the splice along the rest of the path, or an exact copy once the path
      is used up. */
  function Rebuilt(node: Tree, path: seq<nat>, depth: nat, v: string): Tree
  {
    if depth <= |path| then Replace(node, path[depth..], v) else node
  }

  /** `create_replacement_string_node`: emits the three-token literal as one finished node. */
  method CreateReplacementStringNode(b: GreenNodeBuilder, v: string) returns (r: Result<(), string>)
    requires b.Valid()
    modifies b
    ensures b.Valid() && r.Success?
    ensures b.parents == old(b.parents) && b.children == old(b.children) + [N(StringLeaf(v))]
  {
    ghost var before := b.children;
    b.StartNode(NodeString);
    b.Token(TokenStringStart, "\"");
    b.Token(TokenStringContent, v);
    b.Token(TokenStringEnd, "\"");
    assert b.children[..|before|] == before;
    assert b.children[|before|..] == StringLeaf(v).children;
    b.FinishNode();
    r := Success(());
  }

  /** `reconstruct_node_exactly` (and `reconstruct_green_node_structure`,
      the same walk over green data): node for node, token for token. */
  method ReconstructNodeExactly(b: GreenNodeBuilder, node: Tree)
    requires b.Valid()
    modifies b
    ensures b.Valid()
    ensures b.parents == old(b.parents) && b.children == old(b.children) + [N(node)]
    decreases node
  {
    b.StartNode(node.kind);
    var i := 0;
    while i < |node.children|
      invariant i <= |node.children|
      decreases |node.children| - i
      invariant b.Valid()
      invariant b.parents == old(b.parents) + [(node.kind, |old(b.children)|)]
      invariant b.children == old(b.children) + node.children[..i]
    {
      match node.children[i] {
        case N(c) =>
          ReconstructNodeExactly(b, c);
        case T(k, s) =>
          b.Token(k, s);
      }
      assert node.children[..i + 1] == node.children[..i] + [node.children[i]];
      i := i + 1;
    }
    assert node.children[..i] == node.children;
    b.FinishNode();
  }

  /** `copy_node_unchanged`: the off-path deep copy. */
  method CopyNodeUnchanged(b: GreenNodeBuilder, node: Tree)
    requires b.Valid()
    modifies b
    ensures b.Valid()
    ensures b.parents == old(b.parents) && b.children == old(b.children) + [N(node)]
  {
    ReconstructNodeExactly(b, node);
  }

  /**
   * `reconstruct_with_replacement`: at the end of the path a string literal
   * is replaced; otherwise the node is reopened, tokens are copied, the node
   * child whose node-only number is `path[depth]` is rebuilt one level
   * deeper and every other node child is copied.  It always succeeds and
   * always leaves exactly one finished node behind.
   */
  method ReconstructWithReplacement(b: GreenNodeBuilder, node: Tree, path: seq<nat>, depth: nat, v: string)
    returns (r: Result<(), string>)
    requires b.Valid()
    modifies b
    ensures b.Valid() && r.Success?
    ensures b.parents == old(b.parents)
    ensures b.children == old(b.children) + [N(Rebuilt(node, path, depth, v))]
    decreases node, 1
  {
    if |path| == depth && node.kind == NodeString {
      r := CreateReplacementStringNode(b, v);
      return;
    }
    b.StartNode(node.kind);
    ghost var first := |b.children|;
    if |path| > depth {
      RebuildChildren(b, node, path, depth, v);
    } else {
      CopyChildren(b, node);
    }
    assert b.children[..first] == old(b.children);
    b.FinishNode();
    r := Success(());
  }

  /** The loop of `reconstruct_with_replacement` on the path: node children
      are counted, the one numbered `path[depth]` is rebuilt one level
      deeper, every other one is copied, and tokens are copied verbatim. */
  method RebuildChildren(b: GreenNodeBuilder, node: Tree, path: seq<nat>, depth: nat, v: string)
    requires b.Valid() && depth < |path|
    modifies b
    ensures b.Valid()
    ensures b.parents == old(b.parents)
    ensures b.children == old(b.children) + ReplaceUpTo(node, path[depth..], v, |node.children|)
    decreases node, 0
  {
    var rest := path[depth..];
    var nextChildIndex := path[depth];
    var childNodeCount := 0;
    var i := 0;
    while i < |node.children|
      invariant i <= |node.children|
      invariant b.Valid()
      invariant b.parents == old(b.parents)
      invariant childNodeCount == NodeCount(node.children[..i])
      invariant b.children == old(b.children) + ReplaceUpTo(node, rest, v, i)
      decreases |node.children| - i
    {
      assert node.children[..i + 1] == node.children[..i] + [node.children[i]];
      NodeCountAppend(node.children[..i], node.children[i]);
      match node.children[i] {
        case N(c) =>
          if childNodeCount == nextChildIndex {
            assert rest[1..] == path[depth + 1..];
            var _ := ReconstructWithReplacement(b, c, path, depth + 1, v);
          } else {
            CopyNodeUnchanged(b, c);
          }
          childNodeCount := childNodeCount + 1;
        case T(k, s) =>
          b.Token(k, s);
      }
      i := i + 1;
    }
  }

  /** The loop of `reconstruct_with_replacement` past the path: every child copied. */
  method CopyChildren(b: GreenNodeBuilder, node: Tree)
    requires b.Valid()
    modifies b
    ensures b.Valid()
    ensures b.parents == old(b.parents)
    ensures b.children == old(b.children) + node.children
  {
    var i := 0;
    while i < |node.children|
      invariant i <= |node.children|
      invariant b.Valid()
      invariant b.parents == old(b.parents)
      invariant b.children == old(b.children) + node.children[..i]
      decreases |node.children| - i
    {
      match node.children[i] {
        case N(c) =>
          CopyNodeUnchanged(b, c);
        case T(k, s) =>
          b.Token(k, s);
      }
      assert node.children[..i + 1] == node.children[..i] + [node.children[i]];
      i := i + 1;
    }
    assert node.children[..i] == node.children;
  }
}
