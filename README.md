# Selective flake-input URL replacement, and the chunk planners

This project models the core of a dotfiles repository in Dafny.

**Flake-input URL rewriting** (`flake-input-modifier`, and its twin in `rnix-test`)

The rewriter changes one input URL in a `flake.nix` file. It replaces, as a whole, the first string literal in pre-order whose text contains the old URL: the literal becomes `"<new>"`, so any text the literal held around the old URL is replaced too, and that literal may be an earlier one that merely mentions the URL (a `description`, say). Within the top-level expression every character outside that literal is kept: whitespace, comments and the order of attributes. Text outside the top-level expression is lost, as the Findings section shows. It works on rnix's lossless syntax tree in three steps:

- **Locate.** `find_url_string_path` searches the tree depth-first for the first `NODE_STRING` whose text contains the old URL. It returns the path of node-child indices that leads there.
- **Rebuild.** `reconstruct_with_replacement` walks the tree again and feeds a rowan `GreenNodeBuilder`. Along the path it recurses into the child with the matching node index. Every other node and token is copied exactly. The string node at the end of the path becomes a fresh three-token string literal holding the new URL.
- **Render.** `replace_flake_input_url` composes the two steps on the top-level expression of a parsed file and returns the rendered text.

**Two chunk planners and a file-name cleaner**

- **`pdf2md.py`:**
  - `split_large_chunk` splits a table-of-contents section into parts that fit a byte budget.
  - The section-end loop of `build_toc_chunks`.
  - `build_size_based_chunks`, the fallback when there is no table of contents.
  - `sanitize_filename`.
- **`process_docling.py`:** `create_smart_chunks` plans chunks from section headings, or by fixed page ranges when there is no structure.

The research crate `rnix-test` has copies of the same functions in rnix-test/src/selective_reconstruction.rs. They are the locator at lines 159-177 and the rebuild at 206-271. The string-node creation is at 273-287, the copy helper at 289-297, and the exact copy at 299-319. `reconstruct_green_node_structure` at 99-126 does the same node-for-node, token-for-token walk over green data as the exact copy. These copies behave like the library functions, so the same members model both. `Reconstruct.ReconstructNodeExactly` models `reconstruct_green_node_structure` as well. The table below cites the library.

### Module layout

| Module | What it holds |
|---|---|
| `Wrappers` | `Option` and `Result`. |
| `Strings` | Substring containment and decimal rendering of naturals. |
| `SyntaxTree` | The lossless tree: nodes of a kind with a sequence of child nodes and tokens. `Text` concatenates the tokens. `At` follows a path of node-child indices. Node indices skip tokens, as rowan's `children()` does. |
| `Splice` | The pure specification of the rebuild. `Replace(t, path, v)` is the tree with the string node at `path` replaced by `StringLeaf(v)`. `Before` and `After` are the text to the left and right of the addressed node. |
| `Locator` | `FindUrlStringPath` and its characterisation as the pre-order-first match. |
| `GreenBuilder` | A class that models rowan's `GreenNodeBuilder`. It has a stack of open nodes and a sequence of finished children. |
| `Reconstruct` | The rebuild as methods that drive the builder. Each method is proved to append exactly the tree given by `Splice`. |
| `FlakeEdit` | `replace_flake_input_url`, plus a corrected variant (see Findings). |
| `Scenarios` | The repository's own test documents, built as trees. Their outcomes are proved. |
| `PdfChunks`, `PdfFilenames`, `DoclingChunks` | The two Python planners and the file-name cleaner. |

### Behaviour of the code worth noting

- **A path that ends on a non-string node.** The code reports no error for this case. `reconstruct_with_replacement` checks only `target_path.len() == current_depth && kind == NODE_STRING`. When the path ends on some other node, or names a node index that does not exist, that node is copied unchanged and the call succeeds. `Splice.ReplaceElsewhereIsCopy` states this.
- **The "Failed to reconstruct" error.** The rebuild never returns `Err`. `Reconstruct.ReconstructWithReplacement` ensures `r.Success?`, so this branch is dead in the model.

## Model

| member | source | states |
|---|---|---|
| `SyntaxTree.Text` | flake-input-modifier/src/lib.rs:144 | The rendered text of a node: its tokens' text in order, as `SyntaxNode::text()` renders it. `SyntaxTree.TextBetweenSplit` and `Splice.TextAroundAddressed` state how it splits. |
| `SyntaxTree.At` | flake-input-modifier/src/lib.rs:47-57 | The node a path of node-child indices addresses, with `None` for an index past the last node child. `Splice.ReplaceSpliceAt` and `Locator.FindIsFirstMatch` state what it addresses. |
| `SyntaxTree.NodePos` | flake-input-modifier/src/lib.rs:50-62 | The k-th node child sits at a position holding a node, with exactly k node children before it. Nodes are counted and tokens skipped, as `child_node_count` does. |
| `SyntaxTree.NodePosUnique` | flake-input-modifier/src/lib.rs:50-62 | Only one position holds the k-th node child. |
| `SyntaxTree.NodeChild` | flake-input-modifier/src/lib.rs:15-16 | The k-th child of `children()` is a node child of `t` with exactly k node children before it (tokens are skipped), and it is structurally smaller than its parent. |
| `SyntaxTree.TextBetweenSplit` | flake-input-modifier/src/lib.rs:144 | A node's text over a range of children is the concatenation of the text over two adjacent sub-ranges. |
| `Strings.ContainsMiddle` | flake-input-modifier/src/lib.rs:9 | `str::contains` holds for a string placed between any prefix and suffix. |
| `Strings.ContainsLength` | flake-input-modifier/src/lib.rs:9 | A contained string is no longer than its container. |
| `Strings.ContainsKeepsChars` | flake-input-modifier/src/lib.rs:9 | Every character of a contained string occurs in the container. The test assertions use this to show that the old URL is gone. |
| `Locator.FindUrlStringPath` | flake-input-modifier/src/lib.rs:5-23 | The locator itself. Its meaning is stated by `Locator.FindIsFirstMatch` and `Locator.FindNoneIffNoMatch`. |
| `Locator.FindInChildren` | flake-input-modifier/src/lib.rs:15-20 | The child loop from the k-th node child on. `Locator.FindInChildrenSound` and `Locator.FindInChildrenFirst` state what it returns. |
| `Locator.FindIsFirstMatch` | flake-input-modifier/src/lib.rs:5-23 | A returned path addresses a `NODE_STRING` whose text contains the target. It comes no later in pre-order than any other such path. Whenever a match exists, a path is returned. |
| `Locator.FindInChildrenSound` | flake-input-modifier/src/lib.rs:15-20 | The child loop returns only paths that lead to a matching string node. |
| `Locator.FindInChildrenFirst` | flake-input-modifier/src/lib.rs:15-20 | The child loop, started at or before the first index of a match, finds a match no later in pre-order. |
| `Locator.FindNoneIffNoMatch` | flake-input-modifier/src/lib.rs:22 | `None` is returned exactly when no string node in the tree contains the target. |
| `Locator.PreorderLeAntisymmetric` | flake-input-modifier/src/lib.rs:5-23 | Pre-order on paths is antisymmetric, so the first match is unique. |
| `GreenBuilder.GreenNodeBuilder.constructor` | flake-input-modifier/src/lib.rs:139 | A new builder has no open node and no finished child. |
| `GreenBuilder.GreenNodeBuilder.StartNode` | flake-input-modifier/src/lib.rs:44 | Opens a node of the given kind and records where its children begin. The finished children are unchanged. |
| `GreenBuilder.GreenNodeBuilder.Token` | flake-input-modifier/src/lib.rs:67 | Appends one token with its kind and text. The open nodes are unchanged. |
| `GreenBuilder.GreenNodeBuilder.FinishNode` | flake-input-modifier/src/lib.rs:86 | Closes the innermost open node. The children since its start become that node, in order. |
| `GreenBuilder.GreenNodeBuilder.Finish` | flake-input-modifier/src/lib.rs:142 | Returns the single finished root node. |
| `Splice.Replace` | flake-input-modifier/src/lib.rs:25-88 | The tree the rebuild produces. `Splice.ReplaceChildren`, `Splice.ReplaceElsewhereIsCopy`, `Splice.ReplaceSplice` and `Splice.ReplaceSpliceAt` characterise it, and `Reconstruct.ReconstructWithReplacement` is proved to build it. |
| `Splice.ReplaceUpTo` | flake-input-modifier/src/lib.rs:52-70 | The children the on-path loop has produced after i children. `Splice.ReplaceUpToSingleSite` states them, and `Reconstruct.RebuildChildren` is proved to append them. |
| `Splice.Before` | flake-input-modifier/src/lib.rs:144 | The rendered text to the left of the addressed node. `Splice.TextAroundAddressed` proves that it is a prefix of the text. |
| `Splice.After` | flake-input-modifier/src/lib.rs:144 | The rendered text to the right of the addressed node. `Splice.TextAroundAddressed` proves that it is a suffix of the text. |
| `Splice.StringLeaf` | flake-input-modifier/src/lib.rs:90-102 | The replacement is a `NODE_STRING` with three tokens. Its text is `"` + new value + `"`. |
| `Splice.ReplaceChildren` | flake-input-modifier/src/lib.rs:47-70 | On the path, only the node child with the path's index is rebuilt, and every other child is kept as it was. An index past the last node child changes nothing. |
| `Splice.ReplaceUpToSingleSite` | flake-input-modifier/src/lib.rs:52-70 | After the loop has processed i children, it has produced i children. Every one equals the original, except the one at the path's node index. That one is the recursively rebuilt child. |
| `Splice.ReplaceElsewhereIsCopy` | flake-input-modifier/src/lib.rs:37-41 | A path that does not end on a string node leaves the tree unchanged. |
| `Splice.TextAroundAddressed` | flake-input-modifier/src/lib.rs:144 | The text of a tree is the text before an addressed node, then that node's text, then the text after it. |
| `Splice.ReplaceSplice` | flake-input-modifier/src/lib.rs:25-88 | Replacing the addressed string node changes the rendered text only between `Before` and `After`. That stretch becomes `"` + new value + `"`. |
| `Splice.ReplaceSpliceAt` | flake-input-modifier/src/lib.rs:37-41 | After the replacement, the path addresses exactly the new string literal. |
| `Splice.NodeCountSameShape` | flake-input-modifier/src/lib.rs:52-70 | Rebuilding children node-for-node keeps the node numbering, so the rebuilt tree is numbered like the original. |
| `Reconstruct.CreateReplacementStringNode` | flake-input-modifier/src/lib.rs:90-102 | Appends exactly `StringLeaf(v)` to the builder, leaves the open nodes as they were, and succeeds. |
| `Reconstruct.ReconstructNodeExactly` | flake-input-modifier/src/lib.rs:108-128 | Appends an exact copy of the node, with every token and sub-node. |
| `Reconstruct.CopyNodeUnchanged` | flake-input-modifier/src/lib.rs:104-106 | Appends an exact copy of the node. |
| `Reconstruct.ReconstructWithReplacement` | flake-input-modifier/src/lib.rs:25-88 | Appends exactly the node rebuilt as `Splice.Replace` specifies for the rest of the path, always succeeds, and leaves the open-node stack balanced. |
| `Reconstruct.RebuildChildren` | flake-input-modifier/src/lib.rs:47-70 | The on-path loop appends the children of `Replace`. Tokens and off-path nodes are copied, and the child with the path's node index is rebuilt. |
| `Reconstruct.CopyChildren` | flake-input-modifier/src/lib.rs:71-84 | Past the end of the path, every child is appended unchanged. |
| `FlakeEdit.TopExpr` | flake-input-modifier/src/lib.rs:135 | The top-level expression is the root's first node child. It exists exactly when that child exists. |
| `FlakeEdit.SplicedTextContainsNew` | flake-input-modifier/src/lib.rs:144 | Text with the new literal spliced in contains the new URL. |
| `FlakeEdit.ReplaceFlakeInputUrl` | flake-input-modifier/src/lib.rs:130-154 | Three outcomes. With no expression, the result is the parse-failure error. With no match, it is `URL '<old>' not found in flake content`. Otherwise the located node is a matching string, the expression's text splits around it, and the result is that text with the literal replaced by `"<new>"`, which contains the new URL. |
| `Scenarios.SimpleUrlReplacement` | flake-input-modifier/src/lib.rs:160-172 | The nixpkgs test document is rewritten to the exact expected text. The result contains the new URL and does not contain the old one. |
| `Scenarios.ComplexUrlReplacement` | flake-input-modifier/src/lib.rs:174-187 | The home-manager test document is rewritten exactly. The result contains the new URL, not the old one, and keeps `inputs.nixpkgs.follows = "nixpkgs"`. |
| `Scenarios.CheckHomeManagerEdit` | flake-input-modifier/src/lib.rs:174-187 | The same outcome for any old URL with a character that occurs in neither the new URL nor the document's fixed text. |
| `Scenarios.EditNixpkgsUrl` | flake-input-modifier/src/lib.rs:161-172 | For every pair of URLs, the one-input flake is rewritten to the same document with the new URL in place. |
| `Scenarios.EditHomeManagerUrl` | flake-input-modifier/src/lib.rs:175-186 | For every pair of URLs, the nested input with a `follows` sibling is rewritten with only the URL changed. |
| `Scenarios.NestedUrlFlakeFind` | flake-input-modifier/src/lib.rs:5-23 | In a nested attribute set, the locator returns the path through each binding's value to the URL literal. |
| `Scenarios.UrlFlakeFind` | flake-input-modifier/src/lib.rs:5-23 | In a one-input flake, the locator finds the URL literal exactly when its text contains the target, and returns `None` otherwise. |
| `Scenarios.BasicStringReplacement` | rnix-test/src/comprehensive_tests.rs:20-44 | A lone `"old-value"` literal is found at the empty path and rebuilt as `"new-value"`. |
| `Scenarios.ComplexAttrsetReplacement` | rnix-test/src/comprehensive_tests.rs:47-68 | In an attribute set with a sibling binding, the URL is found at `[0,1,0,1]`. The text becomes the expected document, with the sibling intact, and contains `new-url`. |
| `Scenarios.NonexistentStringHandling` | rnix-test/src/comprehensive_tests.rs:188-200 | Searching for a URL that no string contains gives `None`. |
| `Scenarios.NonexistentUrlReplacement` | flake-input-modifier/src/lib.rs:148-150 | Rewriting a URL that does not occur gives the not-found error for that URL. |
| `Scenarios.EditCommentedAsWritten` | flake-input-modifier/src/lib.rs:135-144 | As written, a document with a leading comment and a trailing newline comes back without either. |
| `Scenarios.EditCommentedPreserving` | flake-input-modifier/src/lib.rs:135-144 | With the corrected composition, the same document comes back with only the URL changed. |
| `FlakeEdit.ReplaceFlakeInputUrlPreserving` | flake-input-modifier/src/lib.rs:130-154 | The corrected composition has the same error cases. On success it returns the whole document with the literal between `Before` and `After` replaced, computed over the full root. |
| `PdfChunks.SplitChunks` | home/files/bin/pdf2md.py:40-60 | `split_large_chunk` as a value. `PdfChunks.SplitChunksSpec` states its meaning, and `PdfChunks.SplitLargeChunk` is proved to compute it. |
| `PdfChunks.Parts` | home/files/bin/pdf2md.py:54-58 | The parts cut by `range(0, len(pages), pages_per_chunk)` from an offset on. `PdfChunks.PartsTile`, `PdfChunks.PartsPieces`, `PdfChunks.PartsFull` and `PdfChunks.PartsTitles` state them. |
| `PdfChunks.PartsFull` | home/files/bin/pdf2md.py:54-58 | Every part but the last has exactly `pages_per_chunk` pages. |
| `PdfChunks.NextSectionEnd` | home/files/bin/pdf2md.py:84-88 | The inner search for the next entry of the same or a higher level. `PdfChunks.NextSectionEndSpec` states its result. |
| `PdfChunks.TocEntryChunk` | home/files/bin/pdf2md.py:90 | The entry `(level, title, page - 1, next_page)`. `PdfChunks.TocEntryChunkSpec` states its fields. |
| `PdfChunks.SizeChunks` | home/files/bin/pdf2md.py:100-112 | `build_size_based_chunks` as a value. `PdfChunks.SizeChunksSpec` states its meaning, and `PdfChunks.BuildSizeBasedChunks` is proved to compute it. |
| `PdfChunks.PagesPerChunk` | home/files/bin/pdf2md.py:52 | `max(1, int(max_size / bytes_per_page))` is at least 1. Above 1, that many pages fit the budget, and one page more would not. |
| `PdfChunks.SplitLargeChunk` | home/files/bin/pdf2md.py:40-60 | The loop builds exactly `SplitChunks`. |
| `PdfChunks.SplitChunksSpec` | home/files/bin/pdf2md.py:40-60 | An entry that fits is returned alone. An entry that does not fit is tiled without gap or overlap by parts at its level. Each part has 1 to `pages_per_chunk` pages and fits the budget unless it is one page long. The k-th part is titled `<title> (Part k)`. Every part but the last has exactly `pages_per_chunk` pages. |
| `PdfChunks.SplitChunksNonEmpty` | home/files/bin/pdf2md.py:40-60 | Splitting never yields an empty list. |
| `PdfChunks.PartsTile` | home/files/bin/pdf2md.py:54-58 | The parts cover pages `start+i` up to `start+n` contiguously. |
| `PdfChunks.PartsTitles` | home/files/bin/pdf2md.py:56 | The part numbers are `i//pages_per_chunk + 1`, consecutive from the first. |
| `PdfChunks.NextSectionEndSpec` | home/files/bin/pdf2md.py:84-88 | A section ends one page before the first later entry of the same or a higher level. Without such an entry it ends at the last page. |
| `PdfChunks.FindNextPage` | home/files/bin/pdf2md.py:84-88 | The inner loop computes exactly `NextSectionEnd`. |
| `PdfChunks.TocEntryChunkSpec` | home/files/bin/pdf2md.py:82-90 | Each entry's range starts at its 0-based page, has its level and title, and ends as `NextSectionEndSpec` says. |
| `PdfChunks.TocChunks` | home/files/bin/pdf2md.py:82-97 | Every table-of-contents line contributes at least one chunk. |
| `PdfChunks.BuildTocChunks` | home/files/bin/pdf2md.py:63-97 | An empty table of contents falls back to size-based chunks. Otherwise the result is each entry's range, split, in order. |
| `PdfChunks.BuildSizeBasedChunks` | home/files/bin/pdf2md.py:100-112 | The loop computes exactly `SizeChunks`. |
| `PdfChunks.SizeChunksSpec` | home/files/bin/pdf2md.py:100-112 | A first page with no bytes is a division-by-zero failure, and only that fails. Otherwise the chunks are all level 1 and tile pages 0 to the total, each with 1 to `pages_per_chunk` pages. The k-th is titled `Section k`. Every chunk but the last has exactly `pages_per_chunk` pages. No pages gives no chunks. |
| `PdfFilenames.LowerChar` | home/files/bin/pdf2md.py:14 | One character of `str.lower()` on ASCII: an upper-case letter maps to the same letter in lower case, anything else to itself, so no upper-case letter is left and the character's class is kept. |
| `PdfFilenames.Lower` | home/files/bin/pdf2md.py:14 | `text.lower()` keeps the length. Each upper-case ASCII letter becomes the same letter in lower case and every other character is unchanged, so its class (word, white space, `-`) is kept. |
| `PdfFilenames.Cleaned` | home/files/bin/pdf2md.py:14-16 | The name before truncation to 50 characters. `PdfFilenames.CleanedSpec` states its meaning. |
| `PdfFilenames.SanitizeFilename` | home/files/bin/pdf2md.py:11-16 | `sanitize_filename`. `PdfFilenames.SanitizeFilenameSafe` and `PdfFilenames.SanitizeFilenameWords` state its meaning. |
| `PdfFilenames.LowerSpec` | home/files/bin/pdf2md.py:14 | Lower-casing leaves no upper-case letter and keeps whether any word character exists. |
| `PdfFilenames.DropUnsafe` | home/files/bin/pdf2md.py:14 | Removing `[^\w\s-]` keeps only word characters, spaces and dashes, all taken from the input. |
| `PdfFilenames.DropUnsafeWords` | home/files/bin/pdf2md.py:14 | Removing unsafe characters keeps every word character, in order. |
| `PdfFilenames.CollapseSeparators` | home/files/bin/pdf2md.py:15 | The result is empty iff the input is, starts with `-` iff the input starts with a separator, and otherwise holds kept characters of the input. `PdfFilenames.CollapseSeparatorsRun` pins that each `[-\s]+` run becomes exactly one `-`. |
| `PdfFilenames.CollapseSeparatorsConcat` | home/files/bin/pdf2md.py:15 | Text that ends in a non-separator collapses independently of what follows it: the result for `a + x` is the result for `a` followed by the result for `x`. |
| `PdfFilenames.CollapseLeadingRun` | home/files/bin/pdf2md.py:15 | A non-empty leading run of separators, followed by a non-separator or nothing, becomes a single `-` in front of the collapse of the rest. |
| `PdfFilenames.CollapseSeparatorsRun` | home/files/bin/pdf2md.py:15 | Each maximal run of separators between `a` (not ending in one) and `b` (not starting with one) becomes exactly one `-`: the result is the collapse of `a`, then `-`, then the collapse of `b`. |
| `PdfFilenames.CollapseSeparatorsNone` | home/files/bin/pdf2md.py:15 | Text without separators is left unchanged, so every character between runs survives, in order. |
| `PdfFilenames.CollapseSeparatorsNoDoubleDash` | home/files/bin/pdf2md.py:15 | After collapsing, no two dashes are adjacent. |
| `PdfFilenames.CollapseSeparatorsWords` | home/files/bin/pdf2md.py:15 | Collapsing keeps every word character, in order. |
| `PdfFilenames.StripLeadingDashes` | home/files/bin/pdf2md.py:16 | `strip('-')` on the left yields a suffix that does not start with `-`. |
| `PdfFilenames.StripTrailingDashes` | home/files/bin/pdf2md.py:16 | `strip('-')` on the right yields a prefix that does not end with `-`. |
| `PdfFilenames.CleanedSpec` | home/files/bin/pdf2md.py:14-16 | Before truncation the name is safe (word characters and dashes), has no `--` and no dash at either end, and keeps every word character of the lower-cased input. |
| `PdfFilenames.SanitizeFilenameSafe` | home/files/bin/pdf2md.py:11-16 | The file name is at most 50 characters, made of word characters and dashes, with no `--` and no leading dash. |
| `PdfFilenames.SanitizeFilenameWords` | home/files/bin/pdf2md.py:11-16 | The name's word characters are a prefix of the input's. When the name is shorter than 50, they are all of them. The name is empty iff the input has no word character. |
| `DoclingChunks.Scan` | pkgs/tomd/process_docling.py:121-132 | The section loop as a value. `DoclingChunks.ScanKeepsInvariant` states what it keeps, and `DoclingChunks.StructuredIgnoresNonSections` states which elements it ignores. |
| `DoclingChunks.StructuredChunks` | pkgs/tomd/process_docling.py:118-137 | The structured plan. `DoclingChunks.StructuredChunksShape` and `DoclingChunks.StructuredChunksEnd` state its meaning. |
| `DoclingChunks.PageRanges` | pkgs/tomd/process_docling.py:140-147 | The fallback page ranges. `DoclingChunks.PageRangesEnds`, `DoclingChunks.PageRangesContiguous`, `DoclingChunks.PageRangesSizes` and `DoclingChunks.PageRangesTitled` state them. |
| `DoclingChunks.SmartChunks` | pkgs/tomd/process_docling.py:109-149 | `create_smart_chunks` as a value. `DoclingChunks.SmartChunksSpec` states its meaning. |
| `DoclingChunks.PlanBySections` | pkgs/tomd/process_docling.py:118-137 | The section loop computes exactly `StructuredChunks`. |
| `DoclingChunks.PlanByPages` | pkgs/tomd/process_docling.py:140-147 | The page-range loop computes exactly `PageRanges`. |
| `DoclingChunks.CreateSmartChunks` | pkgs/tomd/process_docling.py:109-149 | The planner computes exactly `SmartChunks`. |
| `DoclingChunks.ScanKeepsInvariant` | pkgs/tomd/process_docling.py:121-132 | The scan keeps its invariant. Closed chunks are contiguous, begin with the Introduction at page 1, and each spans at least `max_chunk_size` pages. Each later chunk starts at a section's page. Chunks only accumulate. |
| `DoclingChunks.CloseKeepsInvariant` | pkgs/tomd/process_docling.py:124-132 | Closing a chunk at a qualifying section keeps the invariant. |
| `DoclingChunks.StructuredChunksShape` | pkgs/tomd/process_docling.py:118-137 | Structured chunks start with `Introduction` at page 1 and are contiguous. Every chunk but the last spans at least `max_chunk_size` pages, and every later chunk starts at a section's page. |
| `DoclingChunks.StructuredChunksEnd` | pkgs/tomd/process_docling.py:134-137 | If the open chunk starts within the page total, it is appended, ending at the page total. If it starts past the total, it is not appended: the plan is the closed chunks alone, and their last one already reaches the total. |
| `DoclingChunks.StructuredIgnoresNonSections` | pkgs/tomd/process_docling.py:122 | Elements that are not sections with a page have no effect on the plan. |
| `DoclingChunks.PageRangesEnds` | pkgs/tomd/process_docling.py:142-147 | The page ranges start at page 1 and end at the page total. |
| `DoclingChunks.PageRangesContiguous` | pkgs/tomd/process_docling.py:142-147 | Each range starts right after the previous one ends. |
| `DoclingChunks.PageRangesSizes` | pkgs/tomd/process_docling.py:142-147 | Each range has 1 to `max_chunk_size` pages. |
| `DoclingChunks.PageRangesTitled` | pkgs/tomd/process_docling.py:146 | Each range is titled `Pages <start>-<end>`. |
| `DoclingChunks.SmartChunksSpec` | pkgs/tomd/process_docling.py:109-149 | A non-empty structured plan is returned as is. The call fails exactly when `max_chunk_size` is zero and no non-empty structured plan is taken; the failure then carries the message Python's `range` raises. With a positive size and at least one page the plan is non-empty. Without structure it tiles pages 1 to the total in titled ranges of at most `max_chunk_size` pages. |
| `Strings.NatToStringRoundTrip` | home/files/bin/pdf2md.py:56 | The decimal rendering used in part and section titles reads back as the same number. |

## Left out

- **Parsing (`Root::parse`).** Parsing is not part of this model. The parsed tree is an input, and "the parse gave no expression" is modelled as a root with no node child. Parse errors that rnix reports beside a tree are not checked by the source either.
- **Rowan internals.** Green-node interning, `SyntaxKind` numbering and the red-tree cursor API are not modelled. The builder is a plain stack of open nodes over a sequence of finished children.
- **Escaping of the new URL.** The new value is written as raw string content, as the source does. The model does not say whether the result re-parses.
- **The research crate's helpers.** The `println!` tracing and the re-parse validation are not modelled. Nor are the command-line front ends and file I/O of either crate.
- **The placeholder comparison in rnix-test/src/real_flake_test.rs:114-117.** It replaces both URLs with a placeholder and compares the texts. It is not modelled separately. `Splice.ReplaceSplice` states exactly where the texts differ: everything outside the literal is unchanged.
- `Scenarios.ComplexAttrsetReplacement`: does not state the test's `!contains("old-url")` separately, because the exact result text it proves already settles it.
- **PDF input (`estimate_bytes_per_page`, `pymupdf4llm`, `doc.get_toc`, `IdentifyHeaders`).** Page sampling, rendering and table-of-contents extraction are I/O. Their results (bytes per page, the table of contents, the page total) are parameters. Both branches of the `IdentifyHeaders` `try` call the same fallback, so its outcome does not matter.
- `PdfChunks.PagesPerChunk`: models Python's `int(max_size / bytes_per_page)` as exact integer division. Both values are non-negative, so floating-point rounding of very large quotients is not modelled.
- `PdfFilenames.SanitizeFilename`: uses ASCII character classes for `\w`, `\s` and `str.lower()`. Python's Unicode-aware classes and case mapping are not modelled.
- `DoclingChunks.SmartChunks`: a missing `page` or `title` is modelled as an absent `Option`. A page of 0 is falsy in Python, so `IsSection` skips it like a missing one. A `title` key present with the value `None`, and JSON values of other types, are not modelled.
- **The document conversion of `process_docling.py`.** The Docling converter calls, the chunk file writing and the command-line interface are I/O and are not modelled.

## Findings

| source | as written | input that shows it | evidently intended | confidence | as-written member | corrected member |
|---|---|---|---|---|---|---|
| flake-input-modifier/src/lib.rs:135-144 | The function rebuilds and renders only `tree.expr()`, the top-level expression. Comments and whitespace that rnix attaches to the root, around that expression, are dropped from the result. | `# comment\n{ inputs = { nixpkgs.url = "a"; }; }\n` with old URL `a` comes back as `{ inputs = { nixpkgs.url = "b"; }; }`, without the comment and without the final newline. | The whole file comes back with only the URL literal changed, which is the stated purpose of selective reconstruction. | not executed | `Scenarios.EditCommentedAsWritten` | `FlakeEdit.ReplaceFlakeInputUrlPreserving` |
