/**
 * The chunk planner of the PDF-to-Markdown converter: a table of contents
 * (or, without one, the page count) becomes a list of page ranges, each
 * estimated to stay within a byte budget.  Page ranges are half-open and
 * 0-based, `[start, end)`, as the converter uses them.
 *
 * Byte counts come from rendering sample pages, which is not modelled: the
 * estimates arrive as parameters.
 */
module PdfChunks {
  import opened Wrappers
  import opened Strings

  /** One `(level, title, page)` line of the table of contents; `page` is 1-based. */
  datatype TocEntry = TocEntry(level: int, title: string, page: int)

  /** One `(level, title, start, end)` chunk. */
  datatype Chunk = Chunk(level: int, title: string, start: int, end: int)

  function Min(a: int, b: int): int { if a <= b then a else b }

  /** `len(range(start, end))`. */
  function PageCount(c: Chunk): nat
  {
    if c.end > c.start then c.end - c.start else 0
  }

  /** `max(1, int(max_size / bytes_per_page))`: the most pages whose estimate
      fits the budget, but never fewer than one. */
  function PagesPerChunk(maxSize: nat, bytesPerPage: nat): (ppc: nat)
    requires bytesPerPage > 0
    ensures ppc >= 1
    ensures ppc > 1 ==> ppc * bytesPerPage <= maxSize
    ensures maxSize < (ppc + 1) * bytesPerPage
  {
    var q := maxSize / bytesPerPage;
    assert q * bytesPerPage <= maxSize < (q + 1) * bytesPerPage by {
      DivBounds(maxSize, bytesPerPage);
    }
    if q >= 1 then q else 1
  }

  lemma DivBounds(a: nat, b: nat)
    requires b > 0
    ensures (a / b) * b <= a < (a / b + 1) * b
  {
  }

  /**
   * The ranges `range(0, n, ppc)` cut out of `n` pages that begin at
   * `start`, from offset `i` on: the piece at offset `i` is numbered
   * `i / ppc + 1` and titled `prefix + number + suffix`.
   */
  function Parts(level: int, prefix: string, suffix: string, start: int, n: nat, ppc: nat, i: nat): seq<Chunk>
    requires ppc >= 1
    decreases n - i
  {
    if i >= n then []
    else [PartAt(level, prefix, suffix, start, n, ppc, i)] + Parts(level, prefix, suffix, start, n, ppc, i + ppc)
  }

  /** The piece at offset `i`: `pages[i:i + ppc]`, numbered `i // ppc + 1`. */
  function PartAt(level: int, prefix: string, suffix: string, start: int, n: nat, ppc: nat, i: nat): Chunk
    requires ppc >= 1
  {
    Chunk(level, prefix + NatToString(i / ppc + 1) + suffix, start + i, start + Min(i + ppc, n))
  }

  /** `cs` covers `[a, b)` in order, each chunk ending where the next begins. */
  predicate Tiles(cs: seq<Chunk>, a: int, b: int)
  {
    && |cs| > 0
    && cs[0].start == a
    && cs[|cs| - 1].end == b
    && (forall k :: 0 <= k < |cs| - 1 ==> cs[k].end == cs[k + 1].start)
  }

  /** A start inside the range contributes its piece, then the rest follow. */
  lemma PartsUnfold(level: int, prefix: string, suffix: string, start: int, n: nat, ppc: nat, i: nat)
    requires ppc >= 1 && i < n
    ensures Parts(level, prefix, suffix, start, n, ppc, i) ==
              [PartAt(level, prefix, suffix, start, n, ppc, i)] + Parts(level, prefix, suffix, start, n, ppc, i + ppc)
  {
  }

  /** Together the pieces from offset `i` on tile the rest of the range. */
  lemma {:induction false} PartsTile(level: int, prefix: string, suffix: string, start: int, n: nat, ppc: nat, i: nat)
    requires ppc >= 1 && i < n
    ensures Tiles(Parts(level, prefix, suffix, start, n, ppc, i), start + i, start + n)
    decreases n - i
  {
    var ps := Parts(level, prefix, suffix, start, n, ppc, i);
    var p := PartAt(level, prefix, suffix, start, n, ppc, i);
    var rest := Parts(level, prefix, suffix, start, n, ppc, i + ppc);
    PartsUnfold(level, prefix, suffix, start, n, ppc, i);
    assert p.start == start + i && p.end == start + Min(i + ppc, n);
    if i + ppc < n {
      PartsTile(level, prefix, suffix, start, n, ppc, i + ppc);
      assert ps[|ps| - 1] == rest[|rest| - 1];
      forall k | 0 <= k < |ps| - 1
        ensures ps[k].end == ps[k + 1].start
      {
        assert ps[k + 1] == rest[k];
        if k > 0 {
          assert ps[k] == rest[k - 1];
        }
      }
    } else {
      assert rest == [];
      assert ps == [p];
    }
  }

  /** Every piece from offset `i` on keeps the level and has 1 to `ppc` pages. */
  lemma {:induction false} PartsPieces(level: int, prefix: string, suffix: string, start: int, n: nat, ppc: nat, i: nat)
    requires ppc >= 1
    ensures forall c :: c in Parts(level, prefix, suffix, start, n, ppc, i) ==>
              c.level == level && 1 <= c.end - c.start <= ppc
    decreases n - i
  {
    if i < n {
      var p := PartAt(level, prefix, suffix, start, n, ppc, i);
      PartsUnfold(level, prefix, suffix, start, n, ppc, i);
      assert p.level == level && p.end - p.start == Min(i + ppc, n) - i;
      PartsPieces(level, prefix, suffix, start, n, ppc, i + ppc);
    }
  }

  /** Every piece from offset `i` on but the last has exactly `ppc` pages. */
  lemma {:induction false} PartsFull(level: int, prefix: string, suffix: string, start: int, n: nat, ppc: nat, i: nat)
    requires ppc >= 1
    ensures var ps := Parts(level, prefix, suffix, start, n, ppc, i);
            forall k :: 0 <= k < |ps| - 1 ==> ps[k].end - ps[k].start == ppc
    decreases n - i
  {
    if i < n {
      var ps := Parts(level, prefix, suffix, start, n, ppc, i);
      var p := PartAt(level, prefix, suffix, start, n, ppc, i);
      var rest := Parts(level, prefix, suffix, start, n, ppc, i + ppc);
      PartsUnfold(level, prefix, suffix, start, n, ppc, i);
      if i + ppc < n {
        assert p.end - p.start == ppc;
        PartsFull(level, prefix, suffix, start, n, ppc, i + ppc);
        forall k | 0 <= k < |ps| - 1
          ensures ps[k].end - ps[k].start == ppc
        {
          if k > 0 {
            assert ps[k] == rest[k - 1];
          }
        }
      } else {
        assert rest == [];
      }
    }
  }

  /** The piece `k` places after offset `m * ppc` is numbered `m + k + 1`. */
  lemma {:induction false} PartsTitles(level: int, prefix: string, suffix: string, start: int, n: nat, ppc: nat, m: nat)
    requires ppc >= 1
    ensures forall k :: 0 <= k < |Parts(level, prefix, suffix, start, n, ppc, m * ppc)| ==>
              Parts(level, prefix, suffix, start, n, ppc, m * ppc)[k].title == prefix + NatToString(m + k + 1) + suffix
    decreases n - m * ppc
  {
    var i := m * ppc;
    if i < n {
      var ps := Parts(level, prefix, suffix, start, n, ppc, i);
      var rest := Parts(level, prefix, suffix, start, n, ppc, (m + 1) * ppc);
      assert i + ppc == (m + 1) * ppc;
      PartsUnfold(level, prefix, suffix, start, n, ppc, i);
      MulDiv(m, ppc);
      assert ps[0].title == prefix + NatToString(m + 1) + suffix;
      PartsTitles(level, prefix, suffix, start, n, ppc, m + 1);
      forall k | 0 < k < |ps|
        ensures ps[k].title == prefix + NatToString(m + k + 1) + suffix
      {
        assert ps[k] == rest[k - 1];
        assert m + 1 + (k - 1) + 1 == m + k + 1;
      }
    }
  }

  lemma MulDiv(m: nat, p: nat)
    requires p >= 1
    ensures (m * p) / p == m
  {
    var q, r := (m * p) / p, (m * p) % p;
    assert m * p == q * p + r && 0 <= r < p;
    assert (m - q) * p == r;
    if q < m {
      MulAtLeast(m - q, p);
    } else if q > m {
      MulAtLeast(q - m, p);
    }
  }

  lemma MulAtLeast(a: int, p: int)
    requires a >= 1 && p >= 1
    ensures a * p >= p
  {
  }

  const PartOpen := " (Part "
  const PartClose := ")"

  /** `split_large_chunk` as a value: the entry itself when its estimate fits
      the budget, otherwise its pages cut into "(Part k)" pieces. */
  function SplitChunks(entry: Chunk, maxSize: nat, bytesPerPage: nat): seq<Chunk>
  {
    var n := PageCount(entry);
    if bytesPerPage * n <= maxSize then [entry]
    else
      Parts(entry.level, entry.title + PartOpen, PartClose, entry.start, n, PagesPerChunk(maxSize, bytesPerPage), 0)
  }

  /** `split_large_chunk`. */
  method SplitLargeChunk(entry: Chunk, maxSize: nat, bytesPerPage: nat) returns (chunks: seq<Chunk>)
    ensures chunks == SplitChunks(entry, maxSize, bytesPerPage)
  {
    var n := PageCount(entry);
    var totalEstimated := bytesPerPage * n;
    if totalEstimated <= maxSize {
      return [entry];
    }
    var ppc := PagesPerChunk(maxSize, bytesPerPage);
    var prefix := entry.title + PartOpen;
    chunks := [];
    var i: int := 0;
    while i < n
      invariant 0 <= i
      invariant chunks + Parts(entry.level, prefix, PartClose, entry.start, n, ppc, i) ==
                Parts(entry.level, prefix, PartClose, entry.start, n, ppc, 0)
      decreases n - i
    {
      var part := PartAt(entry.level, prefix, PartClose, entry.start, n, ppc, i);
      PartsUnfold(entry.level, prefix, PartClose, entry.start, n, ppc, i);
      assert chunks + ([part] + Parts(entry.level, prefix, PartClose, entry.start, n, ppc, i + ppc)) ==
             (chunks + [part]) + Parts(entry.level, prefix, PartClose, entry.start, n, ppc, i + ppc);
      chunks := chunks + [part];
      i := i + ppc;
    }
    assert Parts(entry.level, prefix, PartClose, entry.start, n, ppc, i) == [];
    assert chunks + [] == chunks;
  }

  /** Each piece's estimate fits the budget unless the piece is one page. */
  lemma PieceFits(pages: nat, ppc: nat, maxSize: nat, bytesPerPage: nat)
    requires bytesPerPage > 0 && 1 <= pages <= ppc && ppc == PagesPerChunk(maxSize, bytesPerPage)
    ensures pages == 1 || bytesPerPage * pages <= maxSize
  {
    if pages > 1 {
      assert bytesPerPage * pages <= bytesPerPage * ppc;
    }
  }

  /**
   * What `split_large_chunk` promises: an entry within budget comes back
   * unchanged; a larger one is cut into consecutive pieces that cover its
   * pages exactly, keep its level, have 1 to `pages_per_chunk` pages each
   * (so each fits the budget unless it is a single page) and are titled
   * "<title> (Part 1)", "<title> (Part 2)", ...
   */
  lemma SplitChunksSpec(entry: Chunk, maxSize: nat, bytesPerPage: nat)
    ensures bytesPerPage * PageCount(entry) <= maxSize ==> SplitChunks(entry, maxSize, bytesPerPage) == [entry]
    ensures bytesPerPage * PageCount(entry) > maxSize ==>
              var cs := SplitChunks(entry, maxSize, bytesPerPage);
              && bytesPerPage > 0
              && Tiles(cs, entry.start, entry.end)
              && (forall c :: c in cs ==> c.level == entry.level)
              && (forall c :: c in cs ==> 1 <= c.end - c.start <= PagesPerChunk(maxSize, bytesPerPage))
              && (forall c :: c in cs ==> c.end - c.start == 1 || bytesPerPage * (c.end - c.start) <= maxSize)
              && (forall k :: 0 <= k < |cs| ==> cs[k].title == entry.title + PartOpen + NatToString(k + 1) + PartClose)
              && (forall k :: 0 <= k < |cs| - 1 ==> cs[k].end - cs[k].start == PagesPerChunk(maxSize, bytesPerPage))
  {
    if bytesPerPage * PageCount(entry) > maxSize {
      SplitPieces(entry, maxSize, bytesPerPage);
      SplitTitles(entry, maxSize, bytesPerPage);
      SplitFull(entry, maxSize, bytesPerPage);
    }
  }

  /** Every piece of an entry over budget but the last has `pages_per_chunk` pages. */
  lemma SplitFull(entry: Chunk, maxSize: nat, bytesPerPage: nat)
    requires bytesPerPage * PageCount(entry) > maxSize
    ensures var cs := SplitChunks(entry, maxSize, bytesPerPage);
            forall k :: 0 <= k < |cs| - 1 ==> cs[k].end - cs[k].start == PagesPerChunk(maxSize, bytesPerPage)
  {
    var n := PageCount(entry);
    var ppc := PagesPerChunk(maxSize, bytesPerPage);
    assert SplitChunks(entry, maxSize, bytesPerPage) == Parts(entry.level, entry.title + PartOpen, PartClose, entry.start, n, ppc, 0);
    PartsFull(entry.level, entry.title + PartOpen, PartClose, entry.start, n, ppc, 0);
  }

  /** The pieces of an entry over budget tile its pages, keep its level and fit. */
  lemma SplitPieces(entry: Chunk, maxSize: nat, bytesPerPage: nat)
    requires bytesPerPage * PageCount(entry) > maxSize
    ensures var cs := SplitChunks(entry, maxSize, bytesPerPage);
            && bytesPerPage > 0
            && Tiles(cs, entry.start, entry.end)
            && (forall c :: c in cs ==> c.level == entry.level)
            && (forall c :: c in cs ==> 1 <= c.end - c.start <= PagesPerChunk(maxSize, bytesPerPage))
            && (forall c :: c in cs ==> c.end - c.start == 1 || bytesPerPage * (c.end - c.start) <= maxSize)
  {
    var n := PageCount(entry);
    assert bytesPerPage > 0 && n > 0;
    var ppc := PagesPerChunk(maxSize, bytesPerPage);
    var cs := SplitChunks(entry, maxSize, bytesPerPage);
    assert cs == Parts(entry.level, entry.title + PartOpen, PartClose, entry.start, n, ppc, 0);
    PartsTile(entry.level, entry.title + PartOpen, PartClose, entry.start, n, ppc, 0);
    PartsPieces(entry.level, entry.title + PartOpen, PartClose, entry.start, n, ppc, 0);
    forall c | c in cs
      ensures c.end - c.start == 1 || bytesPerPage * (c.end - c.start) <= maxSize
    {
      PieceFits(c.end - c.start, ppc, maxSize, bytesPerPage);
    }
  }

  /** The pieces of an entry over budget are titled "<title> (Part k)", k from 1. */
  lemma SplitTitles(entry: Chunk, maxSize: nat, bytesPerPage: nat)
    requires bytesPerPage * PageCount(entry) > maxSize
    ensures var cs := SplitChunks(entry, maxSize, bytesPerPage);
            forall k :: 0 <= k < |cs| ==> cs[k].title == entry.title + PartOpen + NatToString(k + 1) + PartClose
  {
    var n := PageCount(entry);
    var ppc := PagesPerChunk(maxSize, bytesPerPage);
    var cs := SplitChunks(entry, maxSize, bytesPerPage);
    assert cs == Parts(entry.level, entry.title + PartOpen, PartClose, entry.start, n, ppc, 0 * ppc);
    PartsTitles(entry.level, entry.title + PartOpen, PartClose, entry.start, n, ppc, 0);
  }

  lemma SplitChunksNonEmpty(entry: Chunk, maxSize: nat, bytesPerPage: nat)
    ensures |SplitChunks(entry, maxSize, bytesPerPage)| >= 1
  {
    var n := PageCount(entry);
    if bytesPerPage * n > maxSize {
      assert n > 0;
    }
  }

  // The table-of-contents planner.

  /** The inner search of `build_toc_chunks`, from index `j` on: the page
      before the next entry at `level` or above, or `total_pages`. */
  function NextSectionEnd(toc: seq<TocEntry>, level: int, j: nat, totalPages: nat): int
    decreases |toc| - j
  {
    if j >= |toc| then totalPages
    else if toc[j].level <= level then toc[j].page - 1
    else NextSectionEnd(toc, level, j + 1, totalPages)
  }

  /** The search stops at the first entry at `level` or above, and only there. */
  lemma NextSectionEndSpec(toc: seq<TocEntry>, level: int, j: nat, totalPages: nat)
    ensures (forall k :: j <= k < |toc| ==> toc[k].level > level) ==>
              NextSectionEnd(toc, level, j, totalPages) == totalPages
    ensures forall m :: (j <= m < |toc| && toc[m].level <= level &&
                         (forall k :: j <= k < m ==> toc[k].level > level)) ==>
              NextSectionEnd(toc, level, j, totalPages) == toc[m].page - 1
  {
    if forall k :: j <= k < |toc| ==> toc[k].level > level {
      NextSectionEndNone(toc, level, j, totalPages);
    }
    forall m | j <= m < |toc| && toc[m].level <= level && (forall k :: j <= k < m ==> toc[k].level > level)
      ensures NextSectionEnd(toc, level, j, totalPages) == toc[m].page - 1
    {
      NextSectionEndFirst(toc, level, j, totalPages, m);
    }
  }

  lemma {:induction false} NextSectionEndNone(toc: seq<TocEntry>, level: int, j: nat, totalPages: nat)
    requires forall k :: j <= k < |toc| ==> toc[k].level > level
    ensures NextSectionEnd(toc, level, j, totalPages) == totalPages
    decreases |toc| - j
  {
    if j < |toc| {
      NextSectionEndNone(toc, level, j + 1, totalPages);
    }
  }

  lemma {:induction false} NextSectionEndFirst(toc: seq<TocEntry>, level: int, j: nat, totalPages: nat, m: nat)
    requires j <= m < |toc| && toc[m].level <= level
    requires forall k :: j <= k < m ==> toc[k].level > level
    ensures NextSectionEnd(toc, level, j, totalPages) == toc[m].page - 1
    decreases m - j
  {
    if j < m {
      assert toc[j].level > level;
      NextSectionEndFirst(toc, level, j + 1, totalPages, m);
    }
  }

  /** The nested `for j` loop with its `break`. */
  method FindNextPage(toc: seq<TocEntry>, i: nat, totalPages: nat) returns (nextPage: int)
    requires i < |toc|
    ensures nextPage == NextSectionEnd(toc, toc[i].level, i + 1, totalPages)
  {
    var level := toc[i].level;
    nextPage := totalPages;
    var j := i + 1;
    while j < |toc|
      invariant i + 1 <= j <= |toc|
      invariant NextSectionEnd(toc, level, j, totalPages) == NextSectionEnd(toc, level, i + 1, totalPages)
      invariant nextPage == totalPages
      decreases |toc| - j
    {
      if toc[j].level <= level {
        nextPage := toc[j].page - 1;
        break;
      }
      j := j + 1;
    }
  }

  /** The entry `build_toc_chunks` forms for TOC line `i`, 0-based. */
  function TocEntryChunk(toc: seq<TocEntry>, i: nat, totalPages: nat): Chunk
    requires i < |toc|
  {
    Chunk(toc[i].level, toc[i].title, toc[i].page - 1, NextSectionEnd(toc, toc[i].level, i + 1, totalPages))
  }

  /** TOC line `i` runs from the page before its own 1-based page to the page
      before the next line at its level or above, or to the last page. */
  lemma TocEntryChunkSpec(toc: seq<TocEntry>, i: nat, totalPages: nat)
    requires i < |toc|
    ensures var c := TocEntryChunk(toc, i, totalPages);
            && c.level == toc[i].level && c.title == toc[i].title && c.start == toc[i].page - 1
            && ((forall k :: i < k < |toc| ==> toc[k].level > toc[i].level) ==> c.end == totalPages)
            && (forall m :: (i < m < |toc| && toc[m].level <= toc[i].level &&
                            (forall k :: i < k < m ==> toc[k].level > toc[i].level)) ==>
                  c.end == toc[m].page - 1)
  {
    NextSectionEndSpec(toc, toc[i].level, i + 1, totalPages);
  }

  /** The chunks of TOC lines `i ..`, each entry split on its own, in order. */
  function TocChunks(toc: seq<TocEntry>, totalPages: nat, maxSize: nat, bytesPerPage: nat, i: nat): (r: seq<Chunk>)
    requires i <= |toc|
    ensures |r| >= |toc| - i  // every TOC line contributes at least one chunk
    decreases |toc| - i
  {
    if i == |toc| then []
    else
      var entry := TocEntryChunk(toc, i, totalPages);
      SplitChunksNonEmpty(entry, maxSize, bytesPerPage);
      SplitChunks(entry, maxSize, bytesPerPage) + TocChunks(toc, totalPages, maxSize, bytesPerPage, i + 1)
  }

  lemma TocChunksUnfold(toc: seq<TocEntry>, totalPages: nat, maxSize: nat, bytesPerPage: nat, i: nat)
    requires i < |toc|
    ensures TocChunks(toc, totalPages, maxSize, bytesPerPage, i) ==
              SplitChunks(TocEntryChunk(toc, i, totalPages), maxSize, bytesPerPage) +
              TocChunks(toc, totalPages, maxSize, bytesPerPage, i + 1)
  {
  }

  const ZeroDivisionMessage := "division by zero"
  const SectionPrefix := "Section "

  /** `build_size_based_chunks`: "Section k" ranges of `pages_per_chunk` pages;
      an empty first page (zero bytes) makes the division fail. */
  function SizeChunks(totalPages: nat, maxSize: nat, bytesPerPage: nat): Result<seq<Chunk>, string>
  {
    if bytesPerPage == 0 then Failure(ZeroDivisionMessage)
    else Success(Parts(1, SectionPrefix, "", 0, totalPages, PagesPerChunk(maxSize, bytesPerPage), 0))
  }

  method BuildSizeBasedChunks(totalPages: nat, maxSize: nat, firstPageBytes: nat) returns (r: Result<seq<Chunk>, string>)
    ensures r == SizeChunks(totalPages, maxSize, firstPageBytes)
  {
    if firstPageBytes == 0 {
      return Failure(ZeroDivisionMessage);
    }
    var ppc := PagesPerChunk(maxSize, firstPageBytes);
    var chunks := [];
    var i: int := 0;
    while i < totalPages
      invariant 0 <= i
      invariant chunks + Parts(1, SectionPrefix, "", 0, totalPages, ppc, i) == Parts(1, SectionPrefix, "", 0, totalPages, ppc, 0)
      decreases totalPages - i
    {
      var part := PartAt(1, SectionPrefix, "", 0, totalPages, ppc, i);
      PartsUnfold(1, SectionPrefix, "", 0, totalPages, ppc, i);
      assert chunks + ([part] + Parts(1, SectionPrefix, "", 0, totalPages, ppc, i + ppc)) ==
             (chunks + [part]) + Parts(1, SectionPrefix, "", 0, totalPages, ppc, i + ppc);
      chunks := chunks + [part];
      i := i + ppc;
    }
    assert Parts(1, SectionPrefix, "", 0, totalPages, ppc, i) == [];
    assert chunks + [] == chunks;
    r := Success(chunks);
  }

  /** Every size-based chunk but the last has `pages_per_chunk` pages. */
  lemma SizeFull(totalPages: nat, maxSize: nat, bytesPerPage: nat)
    requires bytesPerPage > 0
    ensures var cs := SizeChunks(totalPages, maxSize, bytesPerPage).value;
            forall k :: 0 <= k < |cs| - 1 ==> cs[k].end - cs[k].start == PagesPerChunk(maxSize, bytesPerPage)
  {
    var ppc := PagesPerChunk(maxSize, bytesPerPage);
    assert SizeChunks(totalPages, maxSize, bytesPerPage).value == Parts(1, SectionPrefix, "", 0, totalPages, ppc, 0);
    PartsFull(1, SectionPrefix, "", 0, totalPages, ppc, 0);
  }

  /**
   * The size-based plan partitions `[0, total_pages)` into level-1 ranges of
   * 1 to `pages_per_chunk` pages titled "Section 1", "Section 2", ...; a
   * document without pages gets no chunks.
   */
  lemma SizeChunksSpec(totalPages: nat, maxSize: nat, bytesPerPage: nat)
    ensures SizeChunks(totalPages, maxSize, bytesPerPage).Failure? <==> bytesPerPage == 0
    ensures bytesPerPage > 0 && totalPages == 0 ==> SizeChunks(totalPages, maxSize, bytesPerPage) == Success([])
    ensures bytesPerPage > 0 && totalPages > 0 ==>
              var cs := SizeChunks(totalPages, maxSize, bytesPerPage).value;
              && Tiles(cs, 0, totalPages)
              && (forall c :: c in cs ==> c.level == 1 && 1 <= c.end - c.start <= PagesPerChunk(maxSize, bytesPerPage))
              && (forall k :: 0 <= k < |cs| ==> cs[k].title == SectionPrefix + NatToString(k + 1))
              && (forall k :: 0 <= k < |cs| - 1 ==> cs[k].end - cs[k].start == PagesPerChunk(maxSize, bytesPerPage))
  {
    if bytesPerPage > 0 && totalPages > 0 {
      var ppc := PagesPerChunk(maxSize, bytesPerPage);
      PartsTile(1, SectionPrefix, "", 0, totalPages, ppc, 0);
      PartsPieces(1, SectionPrefix, "", 0, totalPages, ppc, 0);
      SizeFull(totalPages, maxSize, bytesPerPage);
      assert 0 * ppc == 0;
      PartsTitles(1, SectionPrefix, "", 0, totalPages, ppc, 0);
      var cs := SizeChunks(totalPages, maxSize, bytesPerPage).value;
      forall k | 0 <= k < |cs|
        ensures cs[k].title == SectionPrefix + NatToString(k + 1)
      {
        assert SectionPrefix + NatToString(0 + k + 1) + "" == SectionPrefix + NatToString(k + 1);
      }
    }
  }

  /**
   * `build_toc_chunks`: without a table of contents the size-based plan
   * (estimated from the first page alone); otherwise each line runs from
   * its page to the page before the next line at its level or above, and
   * is split against the budget.  `tocBytesPerPage` is the sampled
   * estimate, `firstPageBytes` the size of the first page's Markdown.
   */
  method BuildTocChunks(toc: seq<TocEntry>, totalPages: nat, maxSize: nat, tocBytesPerPage: nat, firstPageBytes: nat)
    returns (r: Result<seq<Chunk>, string>)
    ensures toc == [] ==> r == SizeChunks(totalPages, maxSize, firstPageBytes)
    ensures toc != [] ==> r == Success(TocChunks(toc, totalPages, maxSize, tocBytesPerPage, 0))
  {
    if toc == [] {
      r := BuildSizeBasedChunks(totalPages, maxSize, firstPageBytes);
      return;
    }
    var chunks := [];
    var i := 0;
    while i < |toc|
      invariant i <= |toc|
      invariant chunks + TocChunks(toc, totalPages, maxSize, tocBytesPerPage, i) ==
                TocChunks(toc, totalPages, maxSize, tocBytesPerPage, 0)
      decreases |toc| - i
    {
      var nextPage := FindNextPage(toc, i, totalPages);
      var entry := Chunk(toc[i].level, toc[i].title, toc[i].page - 1, nextPage);
      var splitChunks := SplitLargeChunk(entry, maxSize, tocBytesPerPage);
      assert entry == TocEntryChunk(toc, i, totalPages);
      TocChunksUnfold(toc, totalPages, maxSize, tocBytesPerPage, i);
      assert chunks + (splitChunks + TocChunks(toc, totalPages, maxSize, tocBytesPerPage, i + 1)) ==
             (chunks + splitChunks) + TocChunks(toc, totalPages, maxSize, tocBytesPerPage, i + 1);
      chunks := chunks + splitChunks;
      i := i + 1;
    }
    assert chunks + [] == chunks;
    r := Success(chunks);
  }
}
