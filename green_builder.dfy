/**
 * The tree builder the reconstructor drives, modelled on rowan's
 * `GreenNodeBuilder`: a stack of open nodes, each remembering its kind and
 * where its children begin in the list of finished elements.
 */
module GreenBuilder {
  import opened SyntaxTree

  class GreenNodeBuilder {
    /** Open nodes, innermost last: kind and index of its first child in `children`. */
    var parents: seq<(Kind, nat)>
    /** Finished tokens and nodes not yet attached to a closed node. */
    var children: seq<Elem>

    /** Open nodes begin in order, and never past the finished elements. */
    ghost predicate Valid()
      reads this
    {
      && (forall i, j :: 0 <= i < j < |parents| ==> parents[i].1 <= parents[j].1)
      && (forall i :: 0 <= i < |parents| ==> parents[i].1 <= |children|)
    }

    constructor ()
      ensures Valid() && parents == [] && children == []
    {
      parents := [];
      children := [];
    }

    /** `start_node`: open a node of the given kind. */
    method StartNode(kind: Kind)
      requires Valid()
      modifies this
      ensures Valid()
      ensures parents == old(parents) + [(kind, |old(children)|)] && children == old(children)
    {
      parents := parents + [(kind, |children|)];
    }

    /** `token`: append a token to the innermost open node. */
    method Token(kind: Kind, text: string)
      requires Valid()
      modifies this
      ensures Valid()
      ensures parents == old(parents) && children == old(children) + [T(kind, text)]
    {
      children := children + [T(kind, text)];
    }

    /** `finish_node`: close the innermost open node; its children are
        everything finished since it was opened.  Closing with nothing open
        is a panic in rowan, hence the precondition. */
    method FinishNode()
      requires Valid() && |parents| > 0
      modifies this
      ensures Valid()
      ensures var (kind, first) := old(parents[|parents| - 1]);
              && parents == old(parents[..|parents| - 1])
              && children == old(children[..first]) + [N(Node(kind, old(children[first..])))]
    {
      var (kind, first) := parents[|parents| - 1];
      parents := parents[..|parents| - 1];
      children := children[..first] + [N(Node(kind, children[first..]))];
    }

    /** `finish`: the one finished node, once everything is closed.  rowan
        asserts that exactly one element is left and that it is a node. */
    method Finish() returns (root: Tree)
      requires |children| == 1 && children[0].N?
      ensures N(root) == children[0]
    {
      root := children[0].node;
    }
  }
}
