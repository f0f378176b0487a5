/**
 * `replace_flake_input_url`: locate the first string literal containing the
 * old URL inside the document's top-level expression, rebuild the tree with
 * the new URL spliced in, and render it.
 *
 * Parsing is not modelled: the caller hands in the parse tree `root` of the
 * document, whose rendering is the document itself (the parser is lossless).
 * The document's top-level expression is the root's first node child.
 */
module FlakeEdit {
  import opened Wrappers
  import opened Strings
  import opened SyntaxTree
  import opened Locator
  import opened Splice
  import opened GreenBuilder
  import opened Reconstruct

  /** `tree.expr()`: the top-level expression, if the parse produced one. */
  function TopExpr(root: Tree): (e: Option<Tree>)
    ensures e.Some? <==> At(root, [0]).Some?
    ensures e.Some? ==> e == At(root, [0])
  {
    if NodeCount(root.children) > 0 then Some(NodeChild(root, 0)) else None
  }

  function NotFoundMessage(oldUrl: string): string
  {
    "URL '" + oldUrl + "' not found in flake content"
  }

  const ParseFailedMessage := "Failed to parse flake content"

  /** The splice text around a located literal contains the new URL. */
  lemma SplicedTextContainsNew(before: string, v: string, after: string)
    ensures Contains(before + "\"" + v + "\"" + after, v)
  {
    assert before + "\"" + v + "\"" + after == (before + "\"") + v + ("\"" + after);
    ContainsMiddle(before + "\"", v, "\"" + after);
  }

  /**
   * The function as written.  It renders the rebuilt top-level expression
   * only, so text the parser keeps at the root around that expression is
   * not part of the result (see ReplaceFlakeInputUrlPreserving).  The
   * reconstruction step never fails, so the source's "Failed to reconstruct"
   * error cannot occur.  `inputName` is unused, as in the source.
   */
  method ReplaceFlakeInputUrl(root: Tree, inputName: string, oldUrl: string, newUrl: string)
    returns (r: Result<string, string>)
    ensures TopExpr(root).None? ==> r == Failure(ParseFailedMessage)
    ensures TopExpr(root).Some? && FindUrlStringPath(TopExpr(root).value, oldUrl).None? ==>
              r == Failure(NotFoundMessage(oldUrl))
    ensures TopExpr(root).Some? && FindUrlStringPath(TopExpr(root).value, oldUrl).Some? ==>
              var e, p := TopExpr(root).value, FindUrlStringPath(TopExpr(root).value, oldUrl).value;
              && MatchAt(e, p, oldUrl)
              && Text(e) == Before(e, p) + Text(At(e, p).value) + After(e, p)
              && r == Success(Before(e, p) + "\"" + newUrl + "\"" + After(e, p))
    ensures r.Success? ==> Contains(r.value, newUrl)
  {
    match TopExpr(root) {
      case None =>
        r := Failure(ParseFailedMessage);
      case Some(expr) =>
        match FindUrlStringPath(expr, oldUrl) {
          case None =>
            r := Failure(NotFoundMessage(oldUrl));
          case Some(path) =>
            FindIsFirstMatch(expr, oldUrl);
            ReplaceSplice(expr, path, newUrl);
            var b := new GreenNodeBuilder();
            var _ := ReconstructWithReplacement(b, expr, path, 0, newUrl);
            assert path[0..] == path;
            var tree := b.Finish();
            r := Success(Text(tree));
            SplicedTextContainsNew(Before(expr, path), newUrl, After(expr, path));
        }
    }
  }

  /**
   * The corrected composition: the same search, but the rebuild starts at
   * the root with the expression's index prepended to the path, so the
   * whole document is reproduced and only the located literal changes.
   */
  method ReplaceFlakeInputUrlPreserving(document: string, root: Tree, inputName: string, oldUrl: string, newUrl: string)
    returns (r: Result<string, string>)
    requires Text(root) == document
    ensures TopExpr(root).None? ==> r == Failure(ParseFailedMessage)
    ensures TopExpr(root).Some? && FindUrlStringPath(TopExpr(root).value, oldUrl).None? ==>
              r == Failure(NotFoundMessage(oldUrl))
    ensures TopExpr(root).Some? && FindUrlStringPath(TopExpr(root).value, oldUrl).Some? ==>
              var p := [0] + FindUrlStringPath(TopExpr(root).value, oldUrl).value;
              && MatchAt(root, p, oldUrl)
              && document == Before(root, p) + Text(At(root, p).value) + After(root, p)
              && r == Success(Before(root, p) + "\"" + newUrl + "\"" + After(root, p))
    ensures r.Success? ==> Contains(r.value, newUrl)
  {
    match TopExpr(root) {
      case None =>
        r := Failure(ParseFailedMessage);
      case Some(expr) =>
        match FindUrlStringPath(expr, oldUrl) {
          case None =>
            r := Failure(NotFoundMessage(oldUrl));
          case Some(path) =>
            FindIsFirstMatch(expr, oldUrl);
            var full := [0] + path;
            assert full[1..] == path;
            assert At(root, full) == At(expr, path);
            ReplaceSplice(root, full, newUrl);
            var b := new GreenNodeBuilder();
            var _ := ReconstructWithReplacement(b, root, full, 0, newUrl);
            assert full[0..] == full;
            var tree := b.Finish();
            r := Success(Text(tree));
            SplicedTextContainsNew(Before(root, full), newUrl, After(root, full));
        }
    }
  }
}
