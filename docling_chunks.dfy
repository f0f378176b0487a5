/**
 * The chunk planner of the Docling-based converter: the document structure
 * found by analysis (its section headings with their 1-based pages) becomes
 * a list of inclusive page ranges `[start, end]`.  With a table of contents
 * a new chunk begins at a section once the current one spans at least
 * `max_chunk_size` pages; otherwise, or when that yields nothing, the pages
 * are cut into fixed ranges "Pages a-b".
 */
module DoclingChunks {
  import opened Wrappers
  import opened Strings

  /** One entry of `structure["structure"]`: its `type`, its `page` (absent
      as None) and its `title` (absent as None). */
  datatype Element = Element(kind: string, page: Option<int>, title: Option<string>)

  /** The analysed structure: the element list, `has_toc` and `pages` (absent as None). */
  datatype Structure = Structure(elements: seq<Element>, hasToc: bool, pages: Option<int>)

  /** A `{"start", "end", "title"}` chunk; both ends are 1-based and inclusive. */
  datatype DocChunk = DocChunk(start: int, end: int, title: string)

  function Min(a: int, b: int): int { if a <= b then a else b }

  /** `structure.get("pages", 1)`. */
  function PageTotal(s: Structure): int
  {
    if s.pages.Some? then s.pages.value else 1
  }

  /** An element the planner looks at: of type "section" with a truthy page. */
  predicate IsSection(e: Element)
  {
    e.kind == SectionKind && e.page.Some? && e.page.value != 0
  }

  const SectionKind := "section"
  const SectionWord := "Section "
  const IntroductionTitle := "Introduction"
  const Introduction := DocChunk(1, 1, IntroductionTitle)

  const ZeroStepMessage := "range() arg 3 must not be zero"

  /** The section loop from element list `elems` on, with the chunks closed so
      far and the open one; returns both at the end of the list. */
  function Scan(elems: seq<Element>, maxChunkSize: int, closed: seq<DocChunk>, current: DocChunk): (seq<DocChunk>, DocChunk)
    decreases |elems|
  {
    if elems == [] then (closed, current)
    else
      var e := elems[0];
      if IsSection(e) && e.page.value - current.start >= maxChunkSize then
        var closed' := closed + [current.(end := e.page.value - 1)];
        var title := if e.title.Some? then e.title.value else SectionWord + NatToString(|closed'| + 1);
        Scan(elems[1..], maxChunkSize, closed', DocChunk(e.page.value, e.page.value, title))
      else Scan(elems[1..], maxChunkSize, closed, current)
  }

  /** One turn of the section loop. */
  lemma ScanStep(elems: seq<Element>, maxChunkSize: int, closed: seq<DocChunk>, current: DocChunk)
    requires elems != []
    ensures var e := elems[0];
            Scan(elems, maxChunkSize, closed, current) ==
              if IsSection(e) && e.page.value - current.start >= maxChunkSize then
                var closed' := closed + [current.(end := e.page.value - 1)];
                var title := if e.title.Some? then e.title.value else SectionWord + NatToString(|closed'| + 1);
                Scan(elems[1..], maxChunkSize, closed', DocChunk(e.page.value, e.page.value, title))
              else Scan(elems[1..], maxChunkSize, closed, current)
  {
  }

  /** The structured plan: the section loop from the Introduction chunk, then
      the open chunk, ended at the page count, if it starts within the document. */
  function StructuredChunks(elems: seq<Element>, maxChunkSize: int, pages: int): seq<DocChunk>
  {
    var (closed, current) := Scan(elems, maxChunkSize, [], Introduction);
    if current.start <= pages then closed + [current.(end := pages)] else closed
  }

  /** A fallback chunk is titled by its two ends. */
  predicate IsPagesTitled(c: DocChunk)
  {
    c.title == PagesTitle(c.start, c.end)
  }

  /** `f"Pages {a}-{b}"`. */
  function PagesTitle(a: int, b: int): string
  {
    PagesWord + IntToString(a) + RangeDash + IntToString(b)
  }

  const PagesWord := "Pages "
  const RangeDash := "-"

  /** `range(0, total, step)` from `i` on, each start `i` making the chunk
      `[i + 1, min(i + step, total)]` titled "Pages a-b". */
  function PageRanges(total: int, step: int, i: int): seq<DocChunk>
    requires step != 0
    decreases if step > 0 then total - i else i - total
  {
    if (step > 0 && i >= total) || (step < 0 && i <= total) then []
    else [PageRange(total, step, i)] + PageRanges(total, step, i + step)
  }

  function PageRange(total: int, step: int, i: int): DocChunk
  {
    var end := Min(i + step, total);
    DocChunk(i + 1, end, PagesTitle(i + 1, end))
  }

  /** A start inside the range contributes its chunk, then the rest follow. */
  lemma PageRangesUnfold(total: int, step: int, i: int)
    requires (step > 0 && i < total) || (step < 0 && i > total)
    ensures PageRanges(total, step, i) == [PageRange(total, step, i)] + PageRanges(total, step, i + step)
  {
  }

  /** `create_smart_chunks` as a value; a zero step in the fallback's `range` fails. */
  function SmartChunks(s: Structure, maxChunkSize: int): Result<seq<DocChunk>, string>
  {
    var structured := if |s.elements| > 0 && s.hasToc then StructuredChunks(s.elements, maxChunkSize, PageTotal(s)) else [];
    if structured != [] then Success(structured)
    else if maxChunkSize == 0 then Failure(ZeroStepMessage)
    else Success(PageRanges(PageTotal(s), maxChunkSize, 0))
  }

  /** The structured branch of `create_smart_chunks`: the section loop,
      then the open chunk if it starts within the document. */
  method PlanBySections(elems: seq<Element>, maxChunkSize: int, pages: int) returns (chunks: seq<DocChunk>)
    ensures chunks == StructuredChunks(elems, maxChunkSize, pages)
  {
    chunks := [];
    var current := Introduction;
    var i := 0;
    while i < |elems|
      invariant i <= |elems|
      invariant Scan(elems[i..], maxChunkSize, chunks, current) == Scan(elems, maxChunkSize, [], Introduction)
      decreases |elems| - i
    {
      var element := elems[i];
      assert elems[i..][1..] == elems[i + 1..];
      ScanStep(elems[i..], maxChunkSize, chunks, current);
      if IsSection(element) {
        var chunkSize := element.page.value - current.start;
        if chunkSize >= maxChunkSize {
          current := current.(end := element.page.value - 1);
          chunks := chunks + [current];
          var title := if element.title.Some? then element.title.value else SectionWord + NatToString(|chunks| + 1);
          current := DocChunk(element.page.value, element.page.value, title);
        }
      }
      i := i + 1;
    }
    assert elems[i..] == [];
    if current.start <= pages {
      current := current.(end := pages);
      chunks := chunks + [current];
    }
  }

  /** The fallback branch of `create_smart_chunks`: the `range(0, total, step)` loop. */
  method PlanByPages(total: int, step: int) returns (chunks: seq<DocChunk>)
    requires step != 0
    ensures chunks == PageRanges(total, step, 0)
  {
    chunks := [];
    var i := 0;
    ghost var rest := PageRanges(total, step, 0);
    assert chunks + rest == rest;
    while (step > 0 && i < total) || (step < 0 && i > total)
      invariant rest == PageRanges(total, step, i)
      invariant chunks + rest == PageRanges(total, step, 0)
      decreases if step > 0 then total - i else i - total
    {
      var c := PageRange(total, step, i);
      ghost var next := PageRanges(total, step, i + step);
      PageRangesUnfold(total, step, i);
      assert chunks + ([c] + next) == (chunks + [c]) + next;
      chunks := chunks + [c];
      i := i + step;
      rest := next;
    }
    assert rest == [];
    assert chunks + rest == chunks;
  }

  /** `create_smart_chunks`. */
  method CreateSmartChunks(s: Structure, maxChunkSize: int) returns (r: Result<seq<DocChunk>, string>)
    ensures r == SmartChunks(s, maxChunkSize)
  {
    var chunks: seq<DocChunk> := [];
    if |s.elements| > 0 && s.hasToc {
      chunks := PlanBySections(s.elements, maxChunkSize, PageTotal(s));
    }
    if chunks == [] {
      if maxChunkSize == 0 {
        return Failure(ZeroStepMessage);
      }
      chunks := PlanByPages(PageTotal(s), maxChunkSize);
    }
    r := Success(chunks);
  }

  // Properties of the plan.

  /** Each chunk ends on the page before the next one starts. */
  predicate Contiguous(cs: seq<DocChunk>)
  {
    forall k :: 0 <= k < |cs| - 1 ==> cs[k].end + 1 == cs[k + 1].start
  }

  /** A page some section of `elems` points at. */
  predicate IsSectionPage(elems: seq<Element>, p: int)
  {
    exists e :: e in elems && IsSection(e) && e.page.value == p
  }

  /** What the section loop keeps true of the closed chunks and the open one. */
  ghost predicate ScanInvariant(elems: seq<Element>, maxChunkSize: int, closed: seq<DocChunk>, current: DocChunk)
  {
    && (closed == [] ==> current == Introduction)
    && (closed != [] ==> closed[0].start == 1 && closed[0].title == IntroductionTitle &&
                         closed[|closed| - 1].end + 1 == current.start)
    && Contiguous(closed)
    && (forall k :: 0 <= k < |closed| ==> closed[k].end - closed[k].start + 1 >= maxChunkSize)
    && (forall k :: 0 < k < |closed| ==> IsSectionPage(elems, closed[k].start))
    && (closed != [] ==> IsSectionPage(elems, current.start))
  }

  /** Closing the open chunk at a section far enough on keeps the invariant. */
  lemma CloseKeepsInvariant(all: seq<Element>, maxChunkSize: int, closed: seq<DocChunk>, current: DocChunk,
                            e: Element, title: string)
    requires e in all && IsSection(e) && e.page.value - current.start >= maxChunkSize
    requires ScanInvariant(all, maxChunkSize, closed, current)
    ensures ScanInvariant(all, maxChunkSize, closed + [current.(end := e.page.value - 1)],
                          DocChunk(e.page.value, e.page.value, title))
  {
    var closed' := closed + [current.(end := e.page.value - 1)];
    assert IsSectionPage(all, e.page.value);
    assert forall k :: 0 <= k < |closed| ==> closed'[k] == closed[k];
  }

  lemma {:induction false} ScanKeepsInvariant(all: seq<Element>, elems: seq<Element>, maxChunkSize: int,
                                              closed: seq<DocChunk>, current: DocChunk)
    requires forall e :: e in elems ==> e in all
    requires ScanInvariant(all, maxChunkSize, closed, current)
    ensures ScanInvariant(all, maxChunkSize, Scan(elems, maxChunkSize, closed, current).0,
                          Scan(elems, maxChunkSize, closed, current).1)
    ensures closed <= Scan(elems, maxChunkSize, closed, current).0
    decreases |elems|
  {
    if elems != [] {
      var e := elems[0];
      assert e in all;
      assert forall x :: x in elems[1..] ==> x in elems;
      if IsSection(e) && e.page.value - current.start >= maxChunkSize {
        var closed' := closed + [current.(end := e.page.value - 1)];
        var title := if e.title.Some? then e.title.value else SectionWord + NatToString(|closed'| + 1);
        CloseKeepsInvariant(all, maxChunkSize, closed, current, e, title);
        ScanKeepsInvariant(all, elems[1..], maxChunkSize, closed', DocChunk(e.page.value, e.page.value, title));
      } else {
        ScanKeepsInvariant(all, elems[1..], maxChunkSize, closed, current);
      }
    }
  }

  /**
   * The structured plan starts with the Introduction chunk at page 1; each
   * chunk ends on the page before the next one starts; every chunk but the
   * last spans at least `max_chunk_size` pages; and every chunk after the
   * first starts at the page of a section.
   */
  lemma StructuredChunksShape(elems: seq<Element>, maxChunkSize: int, pages: int)
    ensures var cs := StructuredChunks(elems, maxChunkSize, pages);
            && (cs != [] ==> cs[0].start == 1 && cs[0].title == IntroductionTitle)
            && Contiguous(cs)
            && (forall k :: 0 <= k < |cs| - 1 ==> cs[k].end - cs[k].start + 1 >= maxChunkSize)
            && (forall k :: 0 < k < |cs| ==> IsSectionPage(elems, cs[k].start))
  {
    ScanKeepsInvariant(elems, elems, maxChunkSize, [], Introduction);
    var (closed, current) := Scan(elems, maxChunkSize, [], Introduction);
    var cs := StructuredChunks(elems, maxChunkSize, pages);
    if current.start <= pages {
      var last := current.(end := pages);
      assert cs == closed + [last];
      assert forall k :: 0 <= k < |closed| ==> cs[k] == closed[k];
      if closed == [] {
        assert cs == [last];
      }
    }
  }

  /** The open chunk is appended, ending at the page count, exactly when it
      starts within the document; otherwise only the closed chunks remain,
      and they already reach beyond the page count. */
  lemma StructuredChunksEnd(elems: seq<Element>, maxChunkSize: int, pages: int)
    ensures var cs := StructuredChunks(elems, maxChunkSize, pages);
            && (Scan(elems, maxChunkSize, [], Introduction).1.start <= pages ==> cs != [] && cs[|cs| - 1].end == pages)
            && (Scan(elems, maxChunkSize, [], Introduction).1.start > pages && cs != [] ==> cs[|cs| - 1].end >= pages)
    ensures var sc := Scan(elems, maxChunkSize, [], Introduction);
            sc.1.start > pages ==> StructuredChunks(elems, maxChunkSize, pages) == sc.0
  {
    ScanKeepsInvariant(elems, elems, maxChunkSize, [], Introduction);
    var (closed, current) := Scan(elems, maxChunkSize, [], Introduction);
    if current.start > pages && closed != [] {
      assert closed[|closed| - 1].end + 1 == current.start;
    }
  }

  /** The elements of `elems` the planner looks at, in order. */
  function Sections(elems: seq<Element>): (r: seq<Element>)
    ensures forall e :: e in r ==> IsSection(e) && e in elems
  {
    if elems == [] then []
    else (if IsSection(elems[0]) then [elems[0]] else []) + Sections(elems[1..])
  }

  /** Elements that are not sections with a page leave the section loop unchanged. */
  lemma {:induction false} ScanIgnoresNonSections(elems: seq<Element>, maxChunkSize: int, closed: seq<DocChunk>, current: DocChunk)
    ensures Scan(elems, maxChunkSize, closed, current) == Scan(Sections(elems), maxChunkSize, closed, current)
    decreases |elems|
  {
    if elems != [] {
      ScanIgnoresNonSections(elems[1..], maxChunkSize, closed, current);
      var e := elems[0];
      if IsSection(e) {
        var ss := Sections(elems);
        assert ss == [e] + Sections(elems[1..]);
        assert ss[0] == e && ss[1..] == Sections(elems[1..]);
        if e.page.value - current.start >= maxChunkSize {
          var closed' := closed + [current.(end := e.page.value - 1)];
          var title := if e.title.Some? then e.title.value else SectionWord + NatToString(|closed'| + 1);
          ScanIgnoresNonSections(elems[1..], maxChunkSize, closed', DocChunk(e.page.value, e.page.value, title));
        }
      } else {
        assert Sections(elems) == Sections(elems[1..]);
      }
    }
  }

  /** The structured plan depends only on the sections with a page. */
  lemma StructuredIgnoresNonSections(elems: seq<Element>, maxChunkSize: int, pages: int)
    ensures StructuredChunks(elems, maxChunkSize, pages) == StructuredChunks(Sections(elems), maxChunkSize, pages)
  {
    ScanIgnoresNonSections(elems, maxChunkSize, [], Introduction);
  }

  /** The fallback ranges from a start `i` inside the document begin with
      page `i + 1` and end with the last page. */
  lemma {:induction false} PageRangesEnds(total: int, step: int, i: int)
    requires step > 0 && i < total
    ensures var cs := PageRanges(total, step, i);
            cs != [] && cs[0].start == i + 1 && cs[|cs| - 1].end == total
    decreases total - i
  {
    PageRangesUnfold(total, step, i);
    if i + step < total {
      PageRangesEnds(total, step, i + step);
    } else {
      assert PageRanges(total, step, i + step) == [];
    }
  }

  /** A chunk put in front of contiguous chunks, ending right before the
      first of them, keeps them contiguous. */
  lemma ContiguousCons(c: DocChunk, rest: seq<DocChunk>)
    requires Contiguous(rest) && (rest != [] ==> c.end + 1 == rest[0].start)
    ensures Contiguous([c] + rest)
  {
    var cs := [c] + rest;
    forall k | 0 <= k < |cs| - 1
      ensures cs[k].end + 1 == cs[k + 1].start
    {
      if k > 0 {
        assert cs[k] == rest[k - 1] && cs[k + 1] == rest[k];
      }
    }
  }

  /** Each fallback range ends on the page before the next one starts. */
  lemma {:induction false} PageRangesContiguous(total: int, step: int, i: int)
    requires step > 0
    ensures Contiguous(PageRanges(total, step, i))
    decreases total - i
  {
    if i < total {
      PageRangesUnfold(total, step, i);
      var cs, rest := PageRanges(total, step, i), PageRanges(total, step, i + step);
      if i + step < total {
        PageRangesContiguous(total, step, i + step);
        PageRangesUnfold(total, step, i + step);
        var c := PageRange(total, step, i);
        assert c.end + 1 == rest[0].start;
        ContiguousCons(c, rest);
      } else {
        assert rest == [];
      }
    }
  }

  /** Each fallback range holds between 1 and `step` pages. */
  lemma {:induction false} PageRangesSizes(total: int, step: int, i: int)
    requires step > 0
    ensures var cs := PageRanges(total, step, i);
            forall k :: 0 <= k < |cs| ==> 1 <= cs[k].end - cs[k].start + 1 <= step
    decreases total - i
  {
    if i < total {
      PageRangesUnfold(total, step, i);
      var cs, rest := PageRanges(total, step, i), PageRanges(total, step, i + step);
      var c := PageRange(total, step, i);
      assert c.end - c.start + 1 == Min(i + step, total) - i;
      PageRangesSizes(total, step, i + step);
      forall k | 0 <= k < |cs|
        ensures 1 <= cs[k].end - cs[k].start + 1 <= step
      {
        if k > 0 {
          assert cs[k] == rest[k - 1];
        }
      }
    }
  }

  /** Every fallback chunk is titled "Pages a-b" by its own two ends. */
  lemma {:induction false} PageRangesTitled(total: int, step: int, i: int)
    requires step != 0
    ensures forall k :: 0 <= k < |PageRanges(total, step, i)| ==> IsPagesTitled(PageRanges(total, step, i)[k])
    decreases if step > 0 then total - i else i - total
  {
    if !((step > 0 && i >= total) || (step < 0 && i <= total)) {
      PageRangesTitled(total, step, i + step);
      var cs := PageRanges(total, step, i);
      var rest := PageRanges(total, step, i + step);
      assert cs == [PageRange(total, step, i)] + rest;
      assert forall k :: 0 < k < |cs| ==> cs[k] == rest[k - 1];
    }
  }

  /**
   * What `create_smart_chunks` promises: with a table of contents and a
   * non-empty structure the structured plan is used if it yields anything;
   * otherwise a positive step cuts pages 1..total into "Pages a-b" ranges
   * of at most `max_chunk_size` pages, so the plan of a document with at
   * least one page is never empty; a zero step fails.
   */
  lemma SmartChunksSpec(s: Structure, maxChunkSize: int)
    ensures |s.elements| > 0 && s.hasToc && StructuredChunks(s.elements, maxChunkSize, PageTotal(s)) != [] ==>
              SmartChunks(s, maxChunkSize) == Success(StructuredChunks(s.elements, maxChunkSize, PageTotal(s)))
    ensures SmartChunks(s, maxChunkSize).Failure? ==> maxChunkSize == 0
    ensures maxChunkSize == 0 && !(|s.elements| > 0 && s.hasToc && StructuredChunks(s.elements, maxChunkSize, PageTotal(s)) != []) ==>
              SmartChunks(s, maxChunkSize) == Failure(ZeroStepMessage)
    ensures maxChunkSize > 0 && PageTotal(s) >= 1 ==>
              SmartChunks(s, maxChunkSize).Success? && SmartChunks(s, maxChunkSize).value != []
    ensures maxChunkSize > 0 && PageTotal(s) >= 1 && !(|s.elements| > 0 && s.hasToc) ==>
              var cs := SmartChunks(s, maxChunkSize).value;
              && cs[0].start == 1 && cs[|cs| - 1].end == PageTotal(s)
              && Contiguous(cs)
              && (forall k :: 0 <= k < |cs| ==> 1 <= cs[k].end - cs[k].start + 1 <= maxChunkSize && IsPagesTitled(cs[k]))
  {
    if maxChunkSize > 0 && PageTotal(s) >= 1 {
      PageRangesEnds(PageTotal(s), maxChunkSize, 0);
      PageRangesContiguous(PageTotal(s), maxChunkSize, 0);
      PageRangesSizes(PageTotal(s), maxChunkSize, 0);
      PageRangesTitled(PageTotal(s), maxChunkSize, 0);
    }
  }
}
