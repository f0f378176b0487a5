/**
 * The repository's own examples, on trees shaped as the Nix parser builds
 * them: attribute sets, bindings, attribute paths, identifiers and string
 * literals, with whitespace and punctuation tokens in place.
 */
module Scenarios {
  import opened Wrappers
  import opened Strings
  import opened SyntaxTree
  import opened Locator
  import opened Splice
  import opened GreenBuilder
  import opened Reconstruct
  import opened FlakeEdit

  function Tok(name: string, text: string): Elem { T(Other(name), text) }
  function Space(): Elem { Tok("TOKEN_WHITESPACE", " ") }

  function Ident(name: string): Tree
  {
    Node(Other("NODE_IDENT"), [Tok("TOKEN_IDENT", name)])
  }
  function Path1(a: string): Tree
  {
    Node(Other("NODE_ATTRPATH"), [N(Ident(a))])
  }
  function Path2(a: string, b: string): Tree
  {
    Node(Other("NODE_ATTRPATH"), [N(Ident(a)), Tok("TOKEN_DOT", "."), N(Ident(b))])
  }
  function Path3(a: string, b: string, c: string): Tree
  {
    Node(Other("NODE_ATTRPATH"), [N(Ident(a)), Tok("TOKEN_DOT", "."), N(Ident(b)), Tok("TOKEN_DOT", "."), N(Ident(c))])
  }
  /** `path = value;` */
  function Binding(path: Tree, value: Tree): Tree
  {
    Node(Other("NODE_ATTRPATH_VALUE"),
      [N(path), Space(), Tok("TOKEN_ASSIGN", "="), Space(), N(value), Tok("TOKEN_SEMICOLON", ";")])
  }
  /** `{ b }` */
  function AttrSet1(b: Tree): Tree
  {
    Node(Other("NODE_ATTR_SET"), [Tok("TOKEN_L_BRACE", "{"), Space(), N(b), Space(), Tok("TOKEN_R_BRACE", "}")])
  }
  /** `{ b1 b2 }` */
  function AttrSet2(b1: Tree, b2: Tree): Tree
  {
    Node(Other("NODE_ATTR_SET"),
      [Tok("TOKEN_L_BRACE", "{"), Space(), N(b1), Space(), N(b2), Space(), Tok("TOKEN_R_BRACE", "}")])
  }

  // Shapes: rendering, node-child numbering and the search, one constructor at a time.

  lemma CountStep(cs: seq<Elem>, k: nat)
    requires k < |cs|
    ensures NodeCount(cs[..k + 1]) == NodeCount(cs[..k]) + (if cs[k].N? then 1 else 0)
  {
    assert cs[..k + 1] == cs[..k] + [cs[k]];
    NodeCountAppend(cs[..k], cs[k]);
  }

  lemma TextStep(t: Tree, hi: nat)
    requires hi < |t.children|
    ensures TextBetween(t, 0, hi + 1) == TextBetween(t, 0, hi) + ChildText(t, hi)
  {
  }

  lemma IdentText(name: string)
    ensures Text(Ident(name)) == name
  {
    TextStep(Ident(name), 0);
  }

  lemma IdentFind(name: string, x: string)
    ensures FindUrlStringPath(Ident(name), x) == None
  {
    var cs := Ident(name).children;
    assert cs[..0] == [];
    CountStep(cs, 0);
    assert cs[..1] == cs;
  }

  lemma Path1Count(a: string)
    ensures NodeCount(Path1(a).children) == 1
    ensures NodePos(Path1(a).children, 0) == 0
  {
    var cs := Path1(a).children;
    assert cs[..0] == [];
    CountStep(cs, 0);
    assert cs[..1] == cs;
    NodePosUnique(cs, 0, 0);
  }

  lemma Path1Text(a: string)
    ensures Text(Path1(a)) == a
  {
    IdentText(a);
    TextStep(Path1(a), 0);
  }

  lemma Path1Find(a: string, x: string)
    ensures FindUrlStringPath(Path1(a), x) == None
  {
    var t := Path1(a);
    Path1Count(a);
    IdentFind(a, x);
    assert NodeChild(t, 0) == Ident(a);
    assert FindInChildren(t, x, 1) == None;
  }

  lemma Path2Count(a: string, b: string)
    ensures NodeCount(Path2(a, b).children) == 2
    ensures NodePos(Path2(a, b).children, 0) == 0 && NodePos(Path2(a, b).children, 1) == 2
  {
    var cs := Path2(a, b).children;
    assert cs[..0] == [];
    CountStep(cs, 0);
    CountStep(cs, 1);
    CountStep(cs, 2);
    assert cs[..3] == cs;
    NodePosUnique(cs, 0, 0);
    NodePosUnique(cs, 1, 2);
  }

  lemma Path2Text(a: string, b: string)
    ensures Text(Path2(a, b)) == a + "." + b
  {
    var t := Path2(a, b);
    IdentText(a);
    IdentText(b);
    TextStep(t, 0);
    TextStep(t, 1);
    TextStep(t, 2);
  }

  lemma Path2Find(a: string, b: string, x: string)
    ensures FindUrlStringPath(Path2(a, b), x) == None
  {
    var t := Path2(a, b);
    Path2Count(a, b);
    IdentFind(a, x);
    IdentFind(b, x);
    assert FindInChildren(t, x, 2) == None;
    assert FindInChildren(t, x, 1) == None;
  }

  lemma Path3Count(a: string, b: string, c: string)
    ensures NodeCount(Path3(a, b, c).children) == 3
    ensures NodePos(Path3(a, b, c).children, 0) == 0 && NodePos(Path3(a, b, c).children, 1) == 2
    ensures NodePos(Path3(a, b, c).children, 2) == 4
  {
    var cs := Path3(a, b, c).children;
    assert cs[..0] == [];
    CountStep(cs, 0);
    CountStep(cs, 1);
    CountStep(cs, 2);
    CountStep(cs, 3);
    CountStep(cs, 4);
    assert cs[..5] == cs;
    NodePosUnique(cs, 0, 0);
    NodePosUnique(cs, 1, 2);
    NodePosUnique(cs, 2, 4);
  }

  lemma Path3Text(a: string, b: string, c: string)
    ensures Text(Path3(a, b, c)) == a + "." + b + "." + c
  {
    var t := Path3(a, b, c);
    IdentText(a);
    IdentText(b);
    IdentText(c);
    TextStep(t, 0);
    TextStep(t, 1);
    TextStep(t, 2);
    TextStep(t, 3);
    TextStep(t, 4);
  }

  lemma Path3Find(a: string, b: string, c: string, x: string)
    ensures FindUrlStringPath(Path3(a, b, c), x) == None
  {
    var t := Path3(a, b, c);
    Path3Count(a, b, c);
    IdentFind(a, x);
    IdentFind(b, x);
    IdentFind(c, x);
    assert FindInChildren(t, x, 3) == None;
    assert FindInChildren(t, x, 2) == None;
    assert FindInChildren(t, x, 1) == None;
  }

  lemma StringShape(s: string, x: string)
    ensures Text(StringLeaf(s)) == "\"" + s + "\""
    ensures FindUrlStringPath(StringLeaf(s), x) ==
              if Contains("\"" + s + "\"", x) then Some([]) else None
  {
    var cs := StringLeaf(s).children;
    assert cs[..0] == [];
    CountStep(cs, 0);
    CountStep(cs, 1);
    CountStep(cs, 2);
    assert cs[..3] == cs;
  }

  lemma BindingCount(p: Tree, v: Tree)
    ensures NodeCount(Binding(p, v).children) == 2
    ensures NodePos(Binding(p, v).children, 0) == 0 && NodeChild(Binding(p, v), 0) == p
    ensures NodePos(Binding(p, v).children, 1) == 4 && NodeChild(Binding(p, v), 1) == v
  {
    var cs := Binding(p, v).children;
    assert cs[..0] == [];
    CountStep(cs, 0);
    CountStep(cs, 1);
    CountStep(cs, 2);
    CountStep(cs, 3);
    CountStep(cs, 4);
    CountStep(cs, 5);
    assert cs[..6] == cs;
    NodePosUnique(cs, 0, 0);
    NodePosUnique(cs, 1, 4);
  }

  lemma BindingHead(p: Tree, v: Tree)
    ensures TextBetween(Binding(p, v), 0, 4) == Text(p) + " = "
  {
    var t := Binding(p, v);
    var tp := Text(p);
    TextStep(t, 0);
    assert TextBetween(t, 0, 1) == tp;
    TextStep(t, 1);
    TextStep(t, 2);
    TextStep(t, 3);
    assert TextBetween(t, 0, 4) == tp + " " + "=" + " ";
    AppendThree(tp, " ", "=", " ", " = ");
  }

  /** Regrouping three appended pieces; a lemma so that `BindingHead` does not
      reason about associativity over its literal pieces. */
  lemma AppendThree(a: string, b: string, c: string, d: string, bcd: string)
    requires b + c + d == bcd
    ensures a + b + c + d == a + bcd
  {
    assert a + b + c + d == a + (b + c + d);
  }

  lemma BindingText(p: Tree, v: Tree)
    ensures Text(Binding(p, v)) == Text(p) + " = " + Text(v) + ";"
    ensures TextBetween(Binding(p, v), 5, 6) == ";"
  {
    var t := Binding(p, v);
    BindingHead(p, v);
    TextStep(t, 4);
    TextStep(t, 5);
  }

  lemma BindingFind(p: Tree, v: Tree, x: string)
    requires FindUrlStringPath(p, x).None?
    ensures FindUrlStringPath(Binding(p, v), x) ==
              match FindUrlStringPath(v, x) case Some(r) => Some([1] + r) case None => None
  {
    BindingCount(p, v);
    var t := Binding(p, v);
    assert !IsMatch(t, x);
    assert FindInChildren(t, x, 0) == FindInChildren(t, x, 1);
    assert FindInChildren(t, x, 2) == None;
  }

  lemma AttrSet1Count(b: Tree)
    ensures NodeCount(AttrSet1(b).children) == 1
    ensures NodePos(AttrSet1(b).children, 0) == 2 && NodeChild(AttrSet1(b), 0) == b
  {
    var cs := AttrSet1(b).children;
    assert cs[..0] == [];
    CountStep(cs, 0);
    CountStep(cs, 1);
    CountStep(cs, 2);
    CountStep(cs, 3);
    CountStep(cs, 4);
    assert cs[..5] == cs;
    NodePosUnique(cs, 0, 2);
  }

  lemma AttrSet1Head(b: Tree)
    ensures TextBetween(AttrSet1(b), 0, 2) == "{ "
  {
    var t := AttrSet1(b);
    TextStep(t, 0);
    TextStep(t, 1);
    assert "{" + " " == "{ ";
  }

  lemma AttrSet1Tail(b: Tree)
    ensures TextBetween(AttrSet1(b), 3, 5) == " }"
  {
    var t := AttrSet1(b);
    assert TextBetween(t, 3, 4) == " ";
    assert " " + "}" == " }";
  }

  lemma AttrSet1Text(b: Tree)
    ensures Text(AttrSet1(b)) == "{ " + Text(b) + " }"
  {
    var t := AttrSet1(b);
    AttrSet1Head(b);
    AttrSet1Tail(b);
    TextStep(t, 2);
    TextBetweenSplit(t, 0, 3, 5);
  }

  lemma AttrSet1Find(b: Tree, x: string)
    ensures FindUrlStringPath(AttrSet1(b), x) ==
              match FindUrlStringPath(b, x) case Some(r) => Some([0] + r) case None => None
  {
    AttrSet1Count(b);
    assert FindInChildren(AttrSet1(b), x, 1) == None;
  }

  lemma AttrSet2Count(b1: Tree, b2: Tree)
    ensures NodeCount(AttrSet2(b1, b2).children) == 2
    ensures NodePos(AttrSet2(b1, b2).children, 0) == 2 && NodeChild(AttrSet2(b1, b2), 0) == b1
    ensures NodePos(AttrSet2(b1, b2).children, 1) == 4 && NodeChild(AttrSet2(b1, b2), 1) == b2
  {
    var cs := AttrSet2(b1, b2).children;
    assert cs[..0] == [];
    CountStep(cs, 0);
    CountStep(cs, 1);
    CountStep(cs, 2);
    CountStep(cs, 3);
    CountStep(cs, 4);
    CountStep(cs, 5);
    CountStep(cs, 6);
    assert cs[..7] == cs;
    NodePosUnique(cs, 0, 2);
    NodePosUnique(cs, 1, 4);
  }

  lemma AttrSet2Text(b1: Tree, b2: Tree)
    ensures Text(AttrSet2(b1, b2)) == "{ " + Text(b1) + " " + Text(b2) + " }"
    ensures TextBetween(AttrSet2(b1, b2), 0, 2) == "{ "
    ensures TextBetween(AttrSet2(b1, b2), 3, 7) == " " + Text(b2) + " }"
  {
    var t := AttrSet2(b1, b2);
    assert TextBetween(t, 0, 1) == "{";
    assert TextBetween(t, 0, 2) == "{ ";
    assert TextBetween(t, 0, 3) == "{ " + Text(b1);
    TextBetweenSplit(t, 0, 3, 7);
    AttrSet2Tail(b1, b2);
  }

  lemma AttrSet2Tail(b1: Tree, b2: Tree)
    ensures TextBetween(AttrSet2(b1, b2), 3, 7) == " " + Text(b2) + " }"
  {
    var t := AttrSet2(b1, b2);
    assert TextBetween(t, 3, 4) == " ";
    assert TextBetween(t, 3, 5) == " " + Text(b2);
    assert TextBetween(t, 3, 6) == " " + Text(b2) + " ";
  }

  lemma AttrSet2Find(b1: Tree, b2: Tree, x: string)
    ensures FindUrlStringPath(AttrSet2(b1, b2), x) ==
              match FindUrlStringPath(b1, x)
              case Some(r) => Some([0] + r)
              case None =>
                match FindUrlStringPath(b2, x) case Some(r) => Some([1] + r) case None => None
  {
    AttrSet2Count(b1, b2);
    var t := AttrSet2(b1, b2);
    assert !IsMatch(t, x);
    assert FindInChildren(t, x, 2) == None;
    if FindUrlStringPath(b1, x).None? {
      assert FindInChildren(t, x, 0) == FindInChildren(t, x, 1);
    }
  }

  // Rebuilding along a path, one constructor at a time.

  lemma LeafReplace(was: string, v: string)
    ensures Replace(StringLeaf(was), [], v) == StringLeaf(v)
  {
  }

  lemma BindingReplace(p: Tree, x: Tree, q: seq<nat>, v: string)
    ensures Replace(Binding(p, x), [1] + q, v) == Binding(p, Replace(x, q, v))
  {
    BindingCount(p, x);
    ReplaceChildren(Binding(p, x), [1] + q, v);
    assert ([1] + q)[0] == 1 && ([1] + q)[1..] == q;
    assert Binding(p, x).children[4 := N(Replace(x, q, v))] == Binding(p, Replace(x, q, v)).children;
  }

  lemma AttrSet1Replace(b: Tree, q: seq<nat>, v: string)
    ensures Replace(AttrSet1(b), [0] + q, v) == AttrSet1(Replace(b, q, v))
  {
    AttrSet1Count(b);
    ReplaceChildren(AttrSet1(b), [0] + q, v);
    assert ([0] + q)[0] == 0 && ([0] + q)[1..] == q;
    assert AttrSet1(b).children[2 := N(Replace(b, q, v))] == AttrSet1(Replace(b, q, v)).children;
  }

  lemma AttrSet2ReplaceFirst(b1: Tree, b2: Tree, q: seq<nat>, v: string)
    ensures Replace(AttrSet2(b1, b2), [0] + q, v) == AttrSet2(Replace(b1, q, v), b2)
  {
    AttrSet2Count(b1, b2);
    ReplaceChildren(AttrSet2(b1, b2), [0] + q, v);
    assert ([0] + q)[0] == 0 && ([0] + q)[1..] == q;
    assert AttrSet2(b1, b2).children[2 := N(Replace(b1, q, v))] == AttrSet2(Replace(b1, q, v), b2).children;
  }

  // The same steps over an abstract child, so that a deep document is
  // handled one level at a time without unfolding the levels below.

  lemma BindingWrapText(p: Tree, tp: string, x: Tree, pre: string, q: string, tail: string)
    requires Text(p) == tp && Text(x) == pre + q + tail
    ensures Text(Binding(p, x)) == (tp + " = " + pre) + q + (tail + ";")
  {
    BindingText(p, x);
    assert (tp + " = ") + (pre + q + tail) + ";" == (tp + " = " + pre) + q + (tail + ";");
  }

  lemma AttrSet1WrapText(x: Tree, pre: string, q: string, tail: string)
    requires Text(x) == pre + q + tail
    ensures Text(AttrSet1(x)) == ("{ " + pre) + q + (tail + " }")
  {
    AttrSet1Text(x);
    assert "{ " + (pre + q + tail) + " }" == ("{ " + pre) + q + (tail + " }");
  }

  lemma BindingFindLift(p: Tree, x: Tree, target: string, r: seq<nat>)
    requires FindUrlStringPath(p, target).None? && FindUrlStringPath(x, target) == Some(r)
    ensures FindUrlStringPath(Binding(p, x), target) == Some([1] + r)
  {
    BindingFind(p, x, target);
  }

  lemma AttrSet1FindLift(x: Tree, target: string, r: seq<nat>)
    requires FindUrlStringPath(x, target) == Some(r)
    ensures FindUrlStringPath(AttrSet1(x), target) == Some([0] + r)
  {
    AttrSet1Find(x, target);
  }

  /** The document root with the expression as its only child. */
  function Root(e: Tree): Tree
  {
    Node(Other("NODE_ROOT"), [N(e)])
  }

  /** A document with a comment line before the expression and a newline after it. */
  function CommentedRoot(comment: string, e: Tree): Tree
  {
    Node(Other("NODE_ROOT"), [Tok("TOKEN_COMMENT", comment), N(e), Tok("TOKEN_WHITESPACE", "\n")])
  }

  lemma RootShape(e: Tree)
    ensures TopExpr(Root(e)) == Some(e)
  {
    var cs := Root(e).children;
    assert cs[..0] == [];
    CountStep(cs, 0);
    assert cs[..1] == cs;
    NodePosUnique(cs, 0, 0);
  }

  lemma CommentedRootShape(comment: string, e: Tree)
    ensures TopExpr(CommentedRoot(comment, e)) == Some(e)
    ensures Text(CommentedRoot(comment, e)) == comment + Text(e) + "\n"
  {
    var t := CommentedRoot(comment, e);
    var cs := t.children;
    assert cs[..0] == [];
    CountStep(cs, 0);
    CountStep(cs, 1);
    CountStep(cs, 2);
    assert cs[..3] == cs;
    NodePosUnique(cs, 0, 1);
    assert TextBetween(t, 0, 1) == comment;
    assert TextBetween(t, 0, 2) == comment + Text(e);
  }

  lemma CommentedRootReplace(comment: string, e: Tree, q: seq<nat>, v: string)
    ensures Replace(CommentedRoot(comment, e), [0] + q, v) == CommentedRoot(comment, Replace(e, q, v))
  {
    var cs := CommentedRoot(comment, e).children;
    assert cs[..0] == [];
    CountStep(cs, 0);
    CountStep(cs, 1);
    CountStep(cs, 2);
    assert cs[..3] == cs;
    NodePosUnique(cs, 0, 1);
    ReplaceChildren(CommentedRoot(comment, e), [0] + q, v);
    assert ([0] + q)[0] == 0 && ([0] + q)[1..] == q;
    assert cs[1 := N(Replace(e, q, v))] == CommentedRoot(comment, Replace(e, q, v)).children;
  }

  lemma NotContainedByChar(s: string, sub: string, i: nat)
    requires i < |sub| && sub[i] !in s
    ensures !Contains(s, sub)
  {
    if Contains(s, sub) {
      ContainsKeepsChars(s, sub, i);
    }
  }

  function Quoted(s: string): string { "\"" + s + "\"" }

  /** `{ <outer> = { <input>.<attr> = "<url>"; }; }` */
  function UrlFlake(outer: string, input: string, attr: string, url: string): Tree
  {
    AttrSet1(Binding(Path1(outer), AttrSet1(Binding(Path2(input, attr), StringLeaf(url)))))
  }

  /** `{ <outer> = { <input> = { <attr> = "<url>"; <second> }; }; }` */
  function NestedUrlFlake(outer: string, input: string, attr: string, url: string, second: Tree): Tree
  {
    AttrSet1(Binding(Path1(outer), AttrSet1(Binding(Path1(input),
      AttrSet2(Binding(Path1(attr), StringLeaf(url)), second)))))
  }

  /** `<a>.<b>.<c> = "<target>";`, as in `inputs.nixpkgs.follows = "nixpkgs";` */
  function Follows(a: string, b: string, c: string, target: string): Tree
  {
    Binding(Path3(a, b, c), StringLeaf(target))
  }

  lemma AttrSet2WrapText(x: Tree, y: Tree, pre: string, q: string, tail: string)
    requires Text(x) == pre + q + tail
    ensures Text(AttrSet2(x, y)) == ("{ " + pre) + q + (tail + (" " + Text(y) + " }"))
  {
    AttrSet2Text(x, y);
    assert "{ " + Text(x) + " " + Text(y) + " }" == "{ " + Text(x) + (" " + Text(y) + " }");
    assert "{ " + (pre + q + tail) + (" " + Text(y) + " }") == ("{ " + pre) + q + (tail + (" " + Text(y) + " }"));
  }

  lemma UrlFlakeText(outer: string, input: string, attr: string, url: string)
    ensures Text(UrlFlake(outer, input, attr, url)) ==
              ("{ " + (outer + " = " + ("{ " + ((input + "." + attr) + " = " + "")))) + Quoted(url) +
              (((("" + ";") + " }") + ";") + " }")
  {
    var leaf := StringLeaf(url);
    var b2 := Binding(Path2(input, attr), leaf);
    var b1 := Binding(Path1(outer), AttrSet1(b2));
    var q := Quoted(url);
    assert Text(leaf) == "" + q + "";
    Path2Text(input, attr);
    BindingWrapText(Path2(input, attr), input + "." + attr, leaf, "", q, "");
    AttrSet1WrapText(b2, (input + "." + attr) + " = " + "", q, "" + ";");
    Path1Text(outer);
    BindingWrapText(Path1(outer), outer, AttrSet1(b2), "{ " + ((input + "." + attr) + " = " + ""), q, ("" + ";") + " }");
    AttrSet1WrapText(b1, outer + " = " + ("{ " + ((input + "." + attr) + " = " + "")), q, (("" + ";") + " }") + ";");
  }

  lemma UrlFlakeFind(outer: string, input: string, attr: string, url: string, x: string)
    ensures FindUrlStringPath(UrlFlake(outer, input, attr, url), x) ==
              if Contains(Quoted(url), x) then Some([0, 1, 0, 1]) else None
  {
    var leaf := StringLeaf(url);
    var b2 := Binding(Path2(input, attr), leaf);
    var b1 := Binding(Path1(outer), AttrSet1(b2));
    StringShape(url, x);
    Path2Find(input, attr, x);
    BindingFind(Path2(input, attr), leaf, x);
    AttrSet1Find(b2, x);
    Path1Find(outer, x);
    BindingFind(Path1(outer), AttrSet1(b2), x);
    AttrSet1Find(b1, x);
    assert [0] + ([1] + ([0] + ([1] + []))) == [0, 1, 0, 1];
  }

  /** Rebuilding along the located path swaps the URL and nothing else. */
  lemma UrlFlakeReplace(outer: string, input: string, attr: string, was: string, v: string)
    ensures Replace(UrlFlake(outer, input, attr, was), [0, 1, 0, 1], v) == UrlFlake(outer, input, attr, v)
  {
    var b2 := Binding(Path2(input, attr), StringLeaf(was));
    LeafReplace(was, v);
    BindingReplace(Path2(input, attr), StringLeaf(was), [], v);
    assert [1] + [] == [1];
    AttrSet1Replace(b2, [1], v);
    assert [0] + [1] == [0, 1];
    BindingReplace(Path1(outer), AttrSet1(b2), [0, 1], v);
    assert [1] + [0, 1] == [1, 0, 1];
    AttrSet1Replace(Binding(Path1(outer), AttrSet1(b2)), [1, 0, 1], v);
    assert [0] + [1, 0, 1] == [0, 1, 0, 1];
  }

  lemma NestedUrlFlakeText(outer: string, input: string, attr: string, url: string, second: Tree)
    ensures Text(NestedUrlFlake(outer, input, attr, url, second)) ==
              ("{ " + (outer + " = " + ("{ " + (input + " = " + ("{ " + (attr + " = " + "")))))) +
              Quoted(url) +
              (((((("" + ";") + (" " + Text(second) + " }")) + ";") + " }") + ";") + " }")
  {
    var leaf := StringLeaf(url);
    var b3 := Binding(Path1(attr), leaf);
    var b2 := Binding(Path1(input), AttrSet2(b3, second));
    var b1 := Binding(Path1(outer), AttrSet1(b2));
    var q := Quoted(url);
    assert Text(leaf) == "" + q + "";
    Path1Text(attr);
    BindingWrapText(Path1(attr), attr, leaf, "", q, "");
    var t3 := "" + ";";
    AttrSet2WrapText(b3, second, attr + " = " + "", q, t3);
    var t2 := t3 + (" " + Text(second) + " }");
    Path1Text(input);
    BindingWrapText(Path1(input), input, AttrSet2(b3, second), "{ " + (attr + " = " + ""), q, t2);
    var p2 := input + " = " + ("{ " + (attr + " = " + ""));
    AttrSet1WrapText(b2, p2, q, t2 + ";");
    Path1Text(outer);
    BindingWrapText(Path1(outer), outer, AttrSet1(b2), "{ " + p2, q, (t2 + ";") + " }");
    AttrSet1WrapText(b1, outer + " = " + ("{ " + p2), q, ((t2 + ";") + " }") + ";");
  }

  /** The search meets the `attr` literal first, so any target it contains is found there. */
  lemma NestedUrlFlakeFind(outer: string, input: string, attr: string, url: string, second: Tree, x: string)
    requires Contains(Quoted(url), x)
    ensures FindUrlStringPath(NestedUrlFlake(outer, input, attr, url, second), x) == Some([0, 1, 0, 1, 0, 1])
  {
    var b3 := Binding(Path1(attr), StringLeaf(url));
    NestedInnerFind(attr, url, second, x);
    NestedOuterFind(outer, input, AttrSet2(b3, second), x, [0, 1]);
    assert [0, 1, 0, 1] + [0, 1] == [0, 1, 0, 1, 0, 1];
  }

  lemma NestedInnerFind(attr: string, url: string, second: Tree, x: string)
    requires Contains(Quoted(url), x)
    ensures FindUrlStringPath(AttrSet2(Binding(Path1(attr), StringLeaf(url)), second), x) == Some([0, 1])
  {
    var leaf := StringLeaf(url);
    var b3 := Binding(Path1(attr), leaf);
    StringShape(url, x);
    Path1Find(attr, x);
    BindingFindLift(Path1(attr), leaf, x, []);
    AttrSet2Find(b3, second, x);
    assert [0] + ([1] + []) == [0, 1];
  }

  /** The two outer levels `{ <outer> = { <input> = ...; }; }` only prefix the path found inside. */
  lemma NestedOuterFind(outer: string, input: string, inner: Tree, x: string, r: seq<nat>)
    requires FindUrlStringPath(inner, x) == Some(r)
    ensures FindUrlStringPath(AttrSet1(Binding(Path1(outer), AttrSet1(Binding(Path1(input), inner)))), x) ==
              Some([0, 1, 0, 1] + r)
  {
    LevelFind(input, inner, x, r);
    LevelFind(outer, AttrSet1(Binding(Path1(input), inner)), x, [0, 1] + r);
    assert [0, 1] + ([0, 1] + r) == [0, 1, 0, 1] + r;
  }

  /** One level `{ <name> = ...; }` prefixes the path found inside with its binding and value. */
  lemma LevelFind(name: string, inner: Tree, x: string, r: seq<nat>)
    requires FindUrlStringPath(inner, x) == Some(r)
    ensures FindUrlStringPath(AttrSet1(Binding(Path1(name), inner)), x) == Some([0, 1] + r)
  {
    Path1Find(name, x);
    BindingFindLift(Path1(name), inner, x, r);
    AttrSet1FindLift(Binding(Path1(name), inner), x, [1] + r);
    assert [0] + ([1] + r) == [0, 1] + r;
  }

  /** Rebuilding along the located path swaps the URL; the sibling binding is copied. */
  lemma NestedUrlFlakeReplace(outer: string, input: string, attr: string, was: string, second: Tree, v: string)
    ensures Replace(NestedUrlFlake(outer, input, attr, was, second), [0, 1, 0, 1, 0, 1], v) ==
            NestedUrlFlake(outer, input, attr, v, second)
  {
    var b3 := Binding(Path1(attr), StringLeaf(was));
    var b2 := Binding(Path1(input), AttrSet2(b3, second));
    LeafReplace(was, v);
    BindingReplace(Path1(attr), StringLeaf(was), [], v);
    assert [1] + [] == [1];
    AttrSet2ReplaceFirst(b3, second, [1], v);
    assert [0] + [1] == [0, 1];
    BindingReplace(Path1(input), AttrSet2(b3, second), [0, 1], v);
    assert [1] + [0, 1] == [1, 0, 1];
    AttrSet1Replace(b2, [1, 0, 1], v);
    assert [0] + [1, 0, 1] == [0, 1, 0, 1];
    BindingReplace(Path1(outer), AttrSet1(b2), [0, 1, 0, 1], v);
    assert [1] + [0, 1, 0, 1] == [1, 0, 1, 0, 1];
    AttrSet1Replace(Binding(Path1(outer), AttrSet1(b2)), [1, 0, 1, 0, 1], v);
    assert [0] + [1, 0, 1, 0, 1] == [0, 1, 0, 1, 0, 1];
  }

  lemma FollowsText(a: string, b: string, c: string, target: string)
    ensures Text(Follows(a, b, c, target)) == (a + "." + b + "." + c) + " = " + Quoted(target) + ";"
  {
    StringShape(target, "");
    Path3Text(a, b, c);
    BindingText(Path3(a, b, c), StringLeaf(target));
  }

  // The repository's examples, as the documents their tests print.

  const InputsOpen := "{ inputs = { "
  const NixpkgsOpen := InputsOpen + "nixpkgs.url = "
  const NixpkgsClose := "; }; }"
  const HomeManagerOpen := InputsOpen + "home-manager = { url = "
  const FollowsPath := "inputs.nixpkgs.follows"
  const FollowsLine := FollowsPath + " = " + "\"nixpkgs\""
  const HomeManagerClose := "; }; }; }"

  /** `{ inputs = { nixpkgs.url = "<url>"; }; }` */
  function NixpkgsDocument(url: string): string
  {
    NixpkgsOpen + Quoted(url) + NixpkgsClose
  }

  /** `{ inputs = { home-manager = { url = "<url>"; inputs.nixpkgs.follows = "nixpkgs"; }; }; }` */
  function HomeManagerDocument(url: string): string
  {
    HomeManagerOpen + Quoted(url) + "; " + FollowsLine + HomeManagerClose
  }

  lemma InputsOpenText(x: string)
    ensures "{ " + ("inputs" + " = " + ("{ " + x)) == InputsOpen + x
  {
    assert "{ " + ("inputs" + " = " + ("{ " + x)) == ("{ " + "inputs" + " = " + "{ ") + x;
  }

  lemma NixpkgsOpenText()
    ensures "{ " + ("inputs" + " = " + ("{ " + (("nixpkgs" + "." + "url") + " = " + ""))) == NixpkgsOpen
  {
    assert ("nixpkgs" + "." + "url") + " = " + "" == "nixpkgs.url = ";
    InputsOpenText("nixpkgs.url = ");
  }

  lemma NixpkgsCloseText()
    ensures (("" + ";") + " }") + ";" + " }" == NixpkgsClose
  {
  }

  lemma HomeManagerOpenText()
    ensures "{ " + ("inputs" + " = " + ("{ " + ("home-manager" + " = " + ("{ " + ("url" + " = " + ""))))) == HomeManagerOpen
  {
    assert "{ " + ("url" + " = " + "") == "{ url = ";
    assert "home-manager" + " = " + "{ url = " == "home-manager = { url = ";
    InputsOpenText("home-manager = { url = ");
  }

  lemma FollowsLineText()
    ensures ("inputs" + "." + "nixpkgs" + "." + "follows") + " = " + Quoted("nixpkgs") == FollowsLine
  {
    assert "inputs" + "." + "nixpkgs" + "." + "follows" == FollowsPath;
    assert Quoted("nixpkgs") == "\"nixpkgs\"";
  }

  /** The tail of the nested document after the URL literal, around the sibling's text. */
  lemma NestedTail(f: string)
    ensures (((((("" + ";") + (" " + (f + ";") + " }")) + ";") + " }") + ";") + " }") == "; " + f + HomeManagerClose
  {
    assert ";" + " " == "; ";
    assert ";" + " }" + ";" + " }" + ";" + " }" == HomeManagerClose;
  }

  /** Replacing a URL that occurs in the `<input>.<attr>` literal of a one-input document. */
  method EditUrlFlake(outer: string, input: string, attr: string, was: string, now: string)
    returns (r: Result<string, string>)
    ensures r == Success(Text(UrlFlake(outer, input, attr, now)))
  {
    var e := UrlFlake(outer, input, attr, was);
    RootShape(e);
    ContainsMiddle("\"", was, "\"");
    UrlFlakeFind(outer, input, attr, was, was);
    r := ReplaceFlakeInputUrl(Root(e), input, was, now);
    ReplaceSplice(e, [0, 1, 0, 1], now);
    UrlFlakeReplace(outer, input, attr, was, now);
  }

  lemma CharNotInConcat(c: char, a: string, b: string)
    requires c !in a && c !in b
    ensures c !in a + b
  {
  }

  /** The one-input document with the names the repository's examples use. */
  lemma NixpkgsDocumentText(url: string)
    ensures Text(UrlFlake("inputs", "nixpkgs", "url", url)) == NixpkgsDocument(url)
  {
    UrlFlakeText("inputs", "nixpkgs", "url", url);
    NixpkgsOpenText();
    NixpkgsCloseText();
  }

  /** Editing the one-input document: only the literal's content changes. */
  method EditNixpkgsUrl(was: string, now: string) returns (r: Result<string, string>)
    ensures r == Success(NixpkgsDocument(now))
  {
    r := EditUrlFlake("inputs", "nixpkgs", "url", was, now);
    NixpkgsDocumentText(now);
  }

  /** A character that occurs in neither the frame nor the URL does not occur in the document. */
  lemma NotInNixpkgsDocument(c: char, url: string)
    requires c !in NixpkgsOpen && c != '"' && c !in url && c !in NixpkgsClose
    ensures c !in NixpkgsDocument(url)
  {
    assert c !in "\"";
    CharNotInConcat(c, "\"", url);
    CharNotInConcat(c, "\"" + url, "\"");
    CharNotInConcat(c, NixpkgsOpen, Quoted(url));
    CharNotInConcat(c, NixpkgsOpen + Quoted(url), NixpkgsClose);
  }

  /** Where the URL sits in the one-input document. */
  lemma NixpkgsDocumentParts(url: string)
    ensures NixpkgsDocument(url) == (NixpkgsOpen + "\"") + url + ("\"" + NixpkgsClose)
  {
  }

  const SimpleWas := "github:NixOS/nixpkgs/nixos-unstable"
  const SimpleNow := "git+file:///home/tim/src/nixpkgs"

  lemma SimpleFrameHasNoN()
    ensures 'N' !in NixpkgsOpen && 'N' !in NixpkgsClose
  {
  }

  lemma SimpleNowHasNoN()
    ensures 'N' !in SimpleNow && SimpleWas[7] == 'N'
  {
  }

  /** `test_simple_url_replacement`: the URL is swapped and the old one is gone. */
  method SimpleUrlReplacement() returns (r: Result<string, string>)
    ensures r == Success(NixpkgsDocument(SimpleNow))
    ensures Contains(r.value, SimpleNow)
    ensures !Contains(r.value, SimpleWas)
  {
    r := EditNixpkgsUrl(SimpleWas, SimpleNow);
    NixpkgsDocumentParts(SimpleNow);
    ContainsMiddle(NixpkgsOpen + "\"", SimpleNow, "\"" + NixpkgsClose);
    SimpleFrameHasNoN();
    SimpleNowHasNoN();
    NotInNixpkgsDocument('N', SimpleNow);
    NotContainedByChar(r.value, SimpleWas, 7);
  }

  /** Replacing the `attr` URL of the nested document; the sibling binding is kept. */
  method EditNestedUrlFlake(outer: string, input: string, attr: string, was: string, second: Tree, now: string)
    returns (r: Result<string, string>)
    ensures r == Success(Text(NestedUrlFlake(outer, input, attr, now, second)))
  {
    var e := NestedUrlFlake(outer, input, attr, was, second);
    RootShape(e);
    ContainsMiddle("\"", was, "\"");
    NestedUrlFlakeFind(outer, input, attr, was, second, was);
    r := ReplaceFlakeInputUrl(Root(e), input, was, now);
    ReplaceSplice(e, [0, 1, 0, 1, 0, 1], now);
    NestedUrlFlakeReplace(outer, input, attr, was, second, now);
  }

  /** The `home-manager` document of the repository's second example. */
  lemma HomeManagerDocumentText(url: string)
    ensures Text(NestedUrlFlake("inputs", "home-manager", "url", url, Follows("inputs", "nixpkgs", "follows", "nixpkgs"))) ==
              HomeManagerDocument(url)
  {
    var second := Follows("inputs", "nixpkgs", "follows", "nixpkgs");
    NestedUrlFlakeText("inputs", "home-manager", "url", url, second);
    FollowsText("inputs", "nixpkgs", "follows", "nixpkgs");
    FollowsLineText();
    HomeManagerOpenText();
    NestedTail(FollowsLine);
    assert HomeManagerOpen + Quoted(url) + ("; " + FollowsLine) + HomeManagerClose ==
           HomeManagerOpen + Quoted(url) + (("; " + FollowsLine) + HomeManagerClose);
    assert "; " + FollowsLine + HomeManagerClose == ("; " + FollowsLine) + HomeManagerClose;
  }

  method EditHomeManagerUrl(was: string, now: string) returns (r: Result<string, string>)
    ensures r == Success(HomeManagerDocument(now))
  {
    var second := Follows("inputs", "nixpkgs", "follows", "nixpkgs");
    r := EditNestedUrlFlake("inputs", "home-manager", "url", was, second, now);
    HomeManagerDocumentText(now);
  }

  /** Where the new URL sits in the `home-manager` document. */
  lemma HomeManagerDocumentUrl(url: string)
    ensures HomeManagerDocument(url) == (HomeManagerOpen + "\"") + url + ("\"" + "; " + FollowsLine + HomeManagerClose)
  {
    QuotedAt(HomeManagerOpen, url, "; ", FollowsLine, HomeManagerClose);
  }

  lemma QuotedAt(a: string, u: string, b: string, c: string, d: string)
    ensures a + Quoted(u) + b + c + d == (a + "\"") + u + ("\"" + b + c + d)
  {
  }

  /** Where the sibling binding sits in the `home-manager` document. */
  lemma HomeManagerDocumentFollows(url: string)
    ensures HomeManagerDocument(url) == (HomeManagerOpen + Quoted(url) + "; ") + FollowsLine + HomeManagerClose
  {
  }

  /** A character that occurs in neither the frame nor the URL does not occur in the document. */
  lemma NotInHomeManagerDocument(c: char, url: string)
    requires c !in HomeManagerOpen && c != '"' && c !in url && c !in "; "
    requires c !in FollowsLine && c !in HomeManagerClose
    ensures c !in HomeManagerDocument(url)
  {
    assert c !in "\"";
    CharNotInConcat(c, "\"", url);
    CharNotInConcat(c, "\"" + url, "\"");
    CharNotInConcat(c, HomeManagerOpen, Quoted(url));
    CharNotInConcat(c, HomeManagerOpen + Quoted(url), "; ");
    CharNotInConcat(c, HomeManagerOpen + Quoted(url) + "; ", FollowsLine);
    CharNotInConcat(c, HomeManagerOpen + Quoted(url) + "; " + FollowsLine, HomeManagerClose);
  }

  /** The edited `home-manager` document holds the new URL and the sibling
      binding, and not the old URL when one of its characters occurs nowhere else. */
  method CheckHomeManagerEdit(was: string, now: string, i: nat) returns (r: Result<string, string>)
    requires i < |was| && was[i] !in now && was[i] != '"' && was[i] !in HomeManagerOpen && was[i] !in "; "
    requires was[i] !in FollowsLine && was[i] !in HomeManagerClose
    ensures r == Success(HomeManagerDocument(now))
    ensures Contains(r.value, now)
    ensures !Contains(r.value, was)
    ensures Contains(r.value, FollowsLine)
  {
    r := EditHomeManagerUrl(was, now);
    HomeManagerDocumentUrl(now);
    HomeManagerDocumentFollows(now);
    ContainsMiddle(HomeManagerOpen + "\"", now, "\"" + "; " + FollowsLine + HomeManagerClose);
    ContainsMiddle(HomeManagerOpen + Quoted(now) + "; ", FollowsLine, HomeManagerClose);
    NotInHomeManagerDocument(was[i], now);
    NotContainedByChar(r.value, was, i);
  }

  const ComplexWas := "github:nix-community/home-manager"
  const ComplexNow := "git+file:///home/tim/src/" + "home-manager?ref=feature"

  lemma ComplexFrameHasNoY()
    ensures 'y' !in HomeManagerOpen && 'y' !in "; " && 'y' !in HomeManagerClose
  {
  }

  lemma ComplexFollowsHasNoY()
    ensures 'y' !in FollowsLine
  {
  }

  lemma ComplexNowHasNoY()
    ensures 'y' !in ComplexNow
  {
    assert 'y' !in "git+file:///home/tim/src/";
    assert 'y' !in "home-manager?ref=feature";
    CharNotInConcat('y', "git+file:///home/tim/src/", "home-manager?ref=feature");
  }

  lemma ComplexWasHasY()
    ensures ComplexWas[19] == 'y'
  {
  }

  /** `test_complex_url_replacement`: the URL is swapped, the old one is gone
      and the sibling `follows` binding survives verbatim. */
  method ComplexUrlReplacement() returns (r: Result<string, string>)
    ensures r == Success(HomeManagerDocument(ComplexNow))
    ensures Contains(r.value, ComplexNow)
    ensures !Contains(r.value, ComplexWas)
    ensures Contains(r.value, FollowsLine)
  {
    ComplexFrameHasNoY();
    ComplexFollowsHasNoY();
    ComplexNowHasNoY();
    ComplexWasHasY();
    r := CheckHomeManagerEdit(ComplexWas, ComplexNow, 19);
  }

  const OldValue := "old-value"
  const NewValue := "new-value"

  lemma NewValueQuoted()
    ensures Quoted(NewValue) == "\"new-value\""
  {
  }

  /** `test_basic_string_replacement`: a document that is a lone literal is
      located at the empty path and rebuilt as exactly the new literal. */
  method BasicStringReplacement() returns (path: Option<seq<nat>>, text: string)
    ensures path == Some([])
    ensures text == "\"new-value\""
  {
    var node := StringLeaf(OldValue);
    ContainsMiddle("\"", OldValue, "\"");
    StringShape(OldValue, OldValue);
    path := FindUrlStringPath(node, OldValue);
    var b := new GreenNodeBuilder();
    var _ := ReconstructWithReplacement(b, node, path.value, 0, NewValue);
    var tree := b.Finish();
    LeafReplace(OldValue, NewValue);
    text := Text(tree);
    NewValueQuoted();
  }

  /** `{ <outer> = { <input>.<attr> = "<url>"; <second> }; }` */
  function SiblingFlake(outer: string, input: string, attr: string, url: string, second: Tree): Tree
  {
    AttrSet1(Binding(Path1(outer), AttrSet2(Binding(Path2(input, attr), StringLeaf(url)), second)))
  }

  lemma SiblingFlakeFind(outer: string, input: string, attr: string, url: string, second: Tree, x: string)
    requires Contains(Quoted(url), x)
    ensures FindUrlStringPath(SiblingFlake(outer, input, attr, url, second), x) == Some([0, 1, 0, 1])
  {
    var leaf := StringLeaf(url);
    var b := Binding(Path2(input, attr), leaf);
    StringShape(url, x);
    Path2Find(input, attr, x);
    BindingFindLift(Path2(input, attr), leaf, x, []);
    AttrSet2Find(b, second, x);
    assert [0] + ([1] + []) == [0, 1];
    LevelFind(outer, AttrSet2(b, second), x, [0, 1]);
    assert [0, 1] + [0, 1] == [0, 1, 0, 1];
  }

  lemma SiblingFlakeReplace(outer: string, input: string, attr: string, was: string, second: Tree, v: string)
    ensures Replace(SiblingFlake(outer, input, attr, was, second), [0, 1, 0, 1], v) ==
            SiblingFlake(outer, input, attr, v, second)
  {
    var b := Binding(Path2(input, attr), StringLeaf(was));
    LeafReplace(was, v);
    BindingReplace(Path2(input, attr), StringLeaf(was), [], v);
    assert [1] + [] == [1];
    AttrSet2ReplaceFirst(b, second, [1], v);
    assert [0] + [1] == [0, 1];
    BindingReplace(Path1(outer), AttrSet2(b, second), [0, 1], v);
    assert [1] + [0, 1] == [1, 0, 1];
    AttrSet1Replace(Binding(Path1(outer), AttrSet2(b, second)), [1, 0, 1], v);
    assert [0] + [1, 0, 1] == [0, 1, 0, 1];
  }

  lemma SiblingFlakeText(outer: string, input: string, attr: string, url: string, second: Tree)
    ensures Text(SiblingFlake(outer, input, attr, url, second)) ==
              ("{ " + (outer + " = " + ("{ " + ((input + "." + attr) + " = " + "")))) + Quoted(url) +
              (((("" + ";") + (" " + Text(second) + " }")) + ";") + " }")
  {
    var leaf := StringLeaf(url);
    var b := Binding(Path2(input, attr), leaf);
    var q := Quoted(url);
    assert Text(leaf) == "" + q + "";
    Path2Text(input, attr);
    BindingWrapText(Path2(input, attr), input + "." + attr, leaf, "", q, "");
    AttrSet2WrapText(b, second, (input + "." + attr) + " = " + "", q, "" + ";");
    var t2 := ("" + ";") + (" " + Text(second) + " }");
    Path1Text(outer);
    BindingWrapText(Path1(outer), outer, AttrSet2(b, second), "{ " + ((input + "." + attr) + " = " + ""), q, t2);
    AttrSet1WrapText(Binding(Path1(outer), AttrSet2(b, second)),
      outer + " = " + ("{ " + ((input + "." + attr) + " = " + "")), q, t2 + ";");
  }

  const OtherLine := "other = \"unchanged\""

  /** `{ inputs = { nixpkgs.url = "<url>"; other = "unchanged"; }; }` */
  function SiblingDocument(url: string): string
  {
    NixpkgsOpen + Quoted(url) + "; " + OtherLine + NixpkgsClose
  }

  /** A one-name binding of a string literal renders as `<name> = "<v>";`. */
  lemma LeafBindingText(name: string, v: string)
    ensures Text(Binding(Path1(name), StringLeaf(v))) == name + " = " + Quoted(v) + ";"
  {
    StringShape(v, "");
    Path1Text(name);
    BindingText(Path1(name), StringLeaf(v));
  }

  lemma OtherLineText()
    ensures Text(Binding(Path1("other"), StringLeaf("unchanged"))) == OtherLine + ";"
  {
    LeafBindingText("other", "unchanged");
  }

  /** The tail of the two-binding document after the URL literal. */
  lemma SiblingTail(f: string)
    ensures (((("" + ";") + (" " + (f + ";") + " }")) + ";") + " }") == "; " + f + NixpkgsClose
  {
    assert ";" + " " == "; ";
    assert ";" + " }" + ";" + " }" == NixpkgsClose;
  }

  lemma SiblingDocumentText(url: string)
    ensures Text(SiblingFlake("inputs", "nixpkgs", "url", url, Binding(Path1("other"), StringLeaf("unchanged")))) ==
              SiblingDocument(url)
  {
    SiblingFlakeText("inputs", "nixpkgs", "url", url, Binding(Path1("other"), StringLeaf("unchanged")));
    OtherLineText();
    NixpkgsOpenText();
    SiblingTail(OtherLine);
    assert NixpkgsOpen + Quoted(url) + ("; " + OtherLine + NixpkgsClose) == SiblingDocument(url);
  }

  /** `test_complex_attrset_replacement`: the located literal is rebuilt with
      the new URL and the sibling binding and all punctuation stay as they were. */
  method ComplexAttrsetReplacement() returns (path: Option<seq<nat>>, text: string)
    ensures path == Some([0, 1, 0, 1])
    ensures text == SiblingDocument("new-url")
    ensures Contains(text, "new-url")
  {
    var second := Binding(Path1("other"), StringLeaf("unchanged"));
    var node := SiblingFlake("inputs", "nixpkgs", "url", "old-url", second);
    ContainsMiddle("\"", "old-url", "\"");
    SiblingFlakeFind("inputs", "nixpkgs", "url", "old-url", second, "old-url");
    path := FindUrlStringPath(node, "old-url");
    var b := new GreenNodeBuilder();
    var _ := ReconstructWithReplacement(b, node, path.value, 0, "new-url");
    var tree := b.Finish();
    assert path.value[0..] == path.value;
    SiblingFlakeReplace("inputs", "nixpkgs", "url", "old-url", second, "new-url");
    SiblingDocumentText("new-url");
    text := Text(tree);
    QuotedAt(NixpkgsOpen, "new-url", "; ", OtherLine, NixpkgsClose);
    ContainsMiddle(NixpkgsOpen + "\"", "new-url", "\"" + "; " + OtherLine + NixpkgsClose);
  }

  /** A target none of whose candidate literals contains it is not found. */
  lemma NixpkgsDocumentNotFound(url: string, x: string, i: nat)
    requires i < |x| && x[i] !in Quoted(url)
    ensures FindUrlStringPath(UrlFlake("inputs", "nixpkgs", "url", url), x).None?
  {
    NotContainedByChar(Quoted(url), x, i);
    UrlFlakeFind("inputs", "nixpkgs", "url", url, x);
  }

  const AbsentUrl := "nonexistent-url"
  const PresentUrl := "github:nixos/nixpkgs"

  lemma AbsentUrlChar()
    ensures AbsentUrl[3] == 'e' && 'e' !in Quoted(PresentUrl)
  {
  }

  /** `test_nonexistent_string_handling`: searching for an absent string finds nothing. */
  lemma NonexistentStringHandling()
    ensures FindUrlStringPath(UrlFlake("inputs", "nixpkgs", "url", PresentUrl), AbsentUrl).None?
  {
    AbsentUrlChar();
    NixpkgsDocumentNotFound(PresentUrl, AbsentUrl, 3);
  }

  /** The same document through `replace_flake_input_url` reports the URL as not found. */
  method NonexistentUrlReplacement() returns (r: Result<string, string>)
    ensures r == Failure(NotFoundMessage(AbsentUrl))
  {
    var e := UrlFlake("inputs", "nixpkgs", "url", PresentUrl);
    RootShape(e);
    NonexistentStringHandling();
    r := ReplaceFlakeInputUrl(Root(e), "nixpkgs", AbsentUrl, "git+file:///x");
  }

  /**
   * A document with a leading comment and a trailing newline, which the
   * parser keeps at the root around the expression.  The function as
   * written returns the edited expression without them.
   */
  method EditCommentedAsWritten(comment: string, was: string, now: string) returns (r: Result<string, string>)
    ensures Text(CommentedRoot(comment, UrlFlake("inputs", "nixpkgs", "url", was))) ==
              comment + NixpkgsDocument(was) + "\n"
    ensures r == Success(NixpkgsDocument(now))
    ensures r.value != comment + NixpkgsDocument(now) + "\n"
  {
    var e := UrlFlake("inputs", "nixpkgs", "url", was);
    CommentedRootShape(comment, e);
    NixpkgsDocumentText(was);
    ContainsMiddle("\"", was, "\"");
    UrlFlakeFind("inputs", "nixpkgs", "url", was, was);
    r := ReplaceFlakeInputUrl(CommentedRoot(comment, e), "nixpkgs", was, now);
    ReplaceSplice(e, [0, 1, 0, 1], now);
    UrlFlakeReplace("inputs", "nixpkgs", "url", was, now);
    NixpkgsDocumentText(now);
    assert |r.value| < |comment + NixpkgsDocument(now) + "\n"|;
  }

  /** The corrected composition keeps the comment and the newline and changes only the URL. */
  method EditCommentedPreserving(comment: string, was: string, now: string) returns (r: Result<string, string>)
    ensures r == Success(comment + NixpkgsDocument(now) + "\n")
  {
    var e := UrlFlake("inputs", "nixpkgs", "url", was);
    var root := CommentedRoot(comment, e);
    CommentedRootShape(comment, e);
    ContainsMiddle("\"", was, "\"");
    UrlFlakeFind("inputs", "nixpkgs", "url", was, was);
    r := ReplaceFlakeInputUrlPreserving(Text(root), root, "nixpkgs", was, now);
    assert [0] + [0, 1, 0, 1] == [0, 0, 1, 0, 1];
    ReplaceSplice(root, [0, 0, 1, 0, 1], now);
    CommentedRootReplace(comment, e, [0, 1, 0, 1], now);
    UrlFlakeReplace("inputs", "nixpkgs", "url", was, now);
    var e' := UrlFlake("inputs", "nixpkgs", "url", now);
    CommentedRootShape(comment, e');
    NixpkgsDocumentText(now);
  }
}
