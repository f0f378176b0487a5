/**
 * `sanitize_filename`: a chunk title becomes a file-name component by
 * lower-casing it, dropping every character that is neither a word
 * character, white space nor '-', turning each run of '-' and white space
 * into one '-', stripping '-' from both ends and keeping 50 characters.
 *
 * Character classes are the ASCII ones: word characters are letters,
 * digits and '_'; white space is the six ASCII separators Python's `\s`
 * matches plus the four information separators U+001C..U+001F.
 */
module PdfFilenames {

  predicate IsWordChar(c: char)
  {
    ('a' <= c <= 'z') || ('A' <= c <= 'Z') || ('0' <= c <= '9') || c == '_'
  }

  predicate IsSpaceChar(c: char)
  {
    c == ' ' || ('\t' <= c <= '\r') || ('\U{1C}' <= c <= '\U{1F}')
  }

  /** A character the first substitution keeps. */
  predicate IsKept(c: char)
  {
    IsWordChar(c) || IsSpaceChar(c) || c == '-'
  }

  /** A character the second substitution folds into a run. */
  predicate IsSeparator(c: char)
  {
    c == '-' || IsSpaceChar(c)
  }

  /** What a sanitised name is made of: lower-case letters, digits, '_' and '-'. */
  predicate IsSafeChar(c: char)
  {
    ('a' <= c <= 'z') || ('0' <= c <= '9') || c == '_' || c == '-'
  }

  /** Every character of `s` is a safe one. */
  predicate IsSafeText(s: string)
  {
    forall c :: c in s ==> IsSafeChar(c)
  }

  /** No two neighbouring characters of `s` are both '-'. */
  predicate NoDoubleDash(s: string)
  {
    forall i, j :: 0 <= i < |s| && 0 <= j < |s| && j == i + 1 ==> !(s[i] == '-' && s[j] == '-')
  }

  /** The word characters of `s`, in order. */
  function WordChars(s: string): string
  {
    if s == [] then [] else (if IsWordChar(s[0]) then [s[0]] else []) + WordChars(s[1..])
  }

  lemma {:induction false} WordCharsConcat(a: string, b: string)
    ensures WordChars(a + b) == WordChars(a) + WordChars(b)
  {
    if a != [] {
      var h := if IsWordChar(a[0]) then [a[0]] else [];
      assert (a + b)[0] == a[0] && (a + b)[1..] == a[1..] + b;
      WordCharsConcat(a[1..], b);
      calc {
        WordChars(a + b);
        h + WordChars(a[1..] + b);
        h + (WordChars(a[1..]) + WordChars(b));
        (h + WordChars(a[1..])) + WordChars(b);
      }
    } else {
      assert a + b == b;
    }
  }

  lemma WordCharsCons(c: char, s: string)
    ensures WordChars([c] + s) == (if IsWordChar(c) then [c] else []) + WordChars(s)
  {
    assert ([c] + s)[1..] == s;
  }

  /** `s` has no word character exactly when `WordChars(s)` is empty. */
  lemma {:induction false} WordCharsEmpty(s: string)
    ensures WordChars(s) == [] <==> forall c :: c in s ==> !IsWordChar(c)
  {
    if s != [] {
      WordCharsEmpty(s[1..]);
      assert s == [s[0]] + s[1..];
    }
  }

  /** One character of `str.lower()` on ASCII. */
  function LowerChar(c: char): (d: char)
    ensures IsWordChar(d) == IsWordChar(c) && IsSpaceChar(d) == IsSpaceChar(c) && (d == '-') == (c == '-')
    ensures !('A' <= d <= 'Z')
    ensures 'A' <= c <= 'Z' ==> 'a' <= d <= 'z' && d as int - 'a' as int == c as int - 'A' as int
    ensures !('A' <= c <= 'Z') ==> d == c
  {
    if 'A' <= c <= 'Z' then (c as int - 'A' as int + 'a' as int) as char else c
  }

  /** `text.lower()` on ASCII. */
  function Lower(s: string): (r: string)
    ensures |r| == |s| && forall i :: 0 <= i < |s| ==> r[i] == LowerChar(s[i])
  {
    seq(|s|, i requires 0 <= i < |s| => LowerChar(s[i]))
  }

  /** Lower-casing leaves no upper-case letter and keeps the word characters. */
  lemma {:induction false} LowerSpec(s: string)
    ensures forall c :: c in Lower(s) ==> !('A' <= c <= 'Z')
    ensures WordChars(Lower(s)) == [] <==> WordChars(s) == []
  {
    WordCharsEmpty(s);
    WordCharsEmpty(Lower(s));
    forall c | c in s && IsWordChar(c)
      ensures exists d :: d in Lower(s) && IsWordChar(d)
    {
      var i :| 0 <= i < |s| && s[i] == c;
      assert Lower(s)[i] in Lower(s);
    }
  }

  /** `re.sub(r'[^\w\s-]', '', s)`. */
  function DropUnsafe(s: string): (r: string)
    ensures forall c :: c in r ==> c in s && IsKept(c)
  {
    if s == [] then []
    else
      var rest := DropUnsafe(s[1..]);
      if IsKept(s[0]) then [s[0]] + rest else rest
  }

  /** Dropping unsafe characters keeps the word characters. */
  lemma {:induction false} DropUnsafeWords(s: string)
    ensures WordChars(DropUnsafe(s)) == WordChars(s)
  {
    if s != [] {
      DropUnsafeWords(s[1..]);
      WordCharsCons(s[0], s[1..]);
      assert s == [s[0]] + s[1..];
      if IsKept(s[0]) {
        WordCharsCons(s[0], DropUnsafe(s[1..]));
      }
    }
  }

  /** `s` without its leading separators. */
  function SkipSeparators(s: string): (r: string)
    ensures |r| <= |s| && r == s[|s| - |r|..]
    ensures r != [] ==> !IsSeparator(r[0])
    ensures s != [] && IsSeparator(s[0]) ==> |r| < |s|
  {
    if s != [] && IsSeparator(s[0]) then SkipSeparators(s[1..]) else s
  }

  /** Skipping separators keeps the word characters. */
  lemma {:induction false} SkipSeparatorsWords(s: string)
    ensures WordChars(SkipSeparators(s)) == WordChars(s)
  {
    if s != [] && IsSeparator(s[0]) {
      var t := s[1..];
      calc {
        WordChars(s);
        { assert s == [s[0]] + t; WordCharsCons(s[0], t); }
        WordChars(t);
        { SkipSeparatorsWords(t); }
        WordChars(SkipSeparators(t));
      }
    }
  }

  /** The characters of a suffix are characters of the whole. */
  lemma SuffixChars(s: string, k: nat)
    requires k <= |s|
    ensures forall c :: c in s[k..] ==> c in s
  {
    forall c | c in s[k..]
      ensures c in s
    {
      var i :| 0 <= i < |s[k..]| && s[k..][i] == c;
      assert s[k + i] == c;
    }
  }

  /** `re.sub(r'[-\s]+', '-', s)`: every maximal run of separators becomes one '-'. */
  function CollapseSeparators(s: string): (r: string)
    ensures r == [] <==> s == []
    ensures r != [] ==> (r[0] == '-' <==> IsSeparator(s[0]))
    ensures forall c :: c in r ==> c == '-' || (c in s && !IsSeparator(c))
    decreases |s|
  {
    if s == [] then []
    else if IsSeparator(s[0]) then
      var t := SkipSeparators(s);
      SuffixChars(s, |s| - |t|);
      "-" + CollapseSeparators(t)
    else
      [s[0]] + CollapseSeparators(s[1..])
  }

  /** Collapsing never leaves two '-' in a row. */
  lemma {:induction false} CollapseSeparatorsNoDoubleDash(s: string)
    ensures NoDoubleDash(CollapseSeparators(s))
    decreases |s|
  {
    if s != [] {
      var r := CollapseSeparators(s);
      var t := if IsSeparator(s[0]) then SkipSeparators(s) else s[1..];
      var rest := CollapseSeparators(t);
      CollapseSeparatorsNoDoubleDash(t);
      assert r == [r[0]] + rest;
      forall i, j | 0 <= i && j == i + 1 && j < |r|
        ensures !(r[i] == '-' && r[j] == '-')
      {
        assert r[j] == rest[j - 1];
        if i > 0 {
          assert r[i] == rest[i - 1];
        }
      }
    }
  }

  /** Collapsing keeps the word characters. */
  lemma {:induction false} CollapseSeparatorsWords(s: string)
    ensures WordChars(CollapseSeparators(s)) == WordChars(s)
    decreases |s|
  {
    if s != [] {
      if IsSeparator(s[0]) {
        var t := SkipSeparators(s);
        CollapseSeparatorsWords(t);
        SkipSeparatorsWords(s);
        WordCharsCons('-', CollapseSeparators(t));
      } else {
        CollapseSeparatorsWords(s[1..]);
        WordCharsCons(s[0], s[1..]);
        assert s == [s[0]] + s[1..];
        WordCharsCons(s[0], CollapseSeparators(s[1..]));
      }
    }
  }

  /** A leading run that ends inside `a` is skipped inside `a`. */
  lemma {:induction false} SkipSeparatorsConcat(a: string, x: string)
    requires a != [] && !IsSeparator(a[|a| - 1])
    ensures SkipSeparators(a + x) == SkipSeparators(a) + x
    ensures SkipSeparators(a) != []
    decreases |a|
  {
    if IsSeparator(a[0]) {
      assert (a + x)[1..] == a[1..] + x;
      SkipSeparatorsConcat(a[1..], x);
    }
  }

  /** A run of separators followed by a non-separator is skipped entirely. */
  lemma {:induction false} SkipSeparatorsRun(run: string, b: string)
    requires forall i :: 0 <= i < |run| ==> IsSeparator(run[i])
    requires b == [] || !IsSeparator(b[0])
    ensures SkipSeparators(run + b) == b
    decreases |run|
  {
    if run != [] {
      assert (run + b)[1..] == run[1..] + b;
      SkipSeparatorsRun(run[1..], b);
    } else {
      assert run + b == b;
    }
  }

  /** Regrouping `h + (p + q)` as `(h + p) + q`; kept as a lemma so that the
      proofs below see one equation instead of associativity reasoning next
      to the unfolded collapse of their symbolic pieces. */
  lemma Regroup(l: string, h: string, m: string, p: string, q: string)
    requires l == h + m && m == p + q
    ensures l == h + p + q
  {
  }

  /** Text ending in a kept character collapses independently of what follows. */
  lemma {:induction false} CollapseSeparatorsConcat(a: string, x: string)
    requires a == [] || !IsSeparator(a[|a| - 1])
    ensures CollapseSeparators(a + x) == CollapseSeparators(a) + CollapseSeparators(x)
    decreases |a|
  {
    if a == [] {
      assert a + x == x;
    } else if IsSeparator(a[0]) {
      var t := SkipSeparators(a);
      SkipSeparatorsConcat(a, x);
      assert t[|t| - 1] == a[|a| - 1];
      CollapseSeparatorsConcat(t, x);
      assert (a + x)[0] == a[0];
      Regroup(CollapseSeparators(a + x), "-", CollapseSeparators(t + x), CollapseSeparators(t), CollapseSeparators(x));
    } else {
      var u := a[1..];
      assert (a + x)[0] == a[0] && (a + x)[1..] == u + x;
      CollapseSeparatorsConcat(u, x);
      Regroup(CollapseSeparators(a + x), [a[0]], CollapseSeparators(u + x), CollapseSeparators(u), CollapseSeparators(x));
    }
  }

  /** A leading run of separators becomes one '-'. */
  lemma CollapseLeadingRun(run: string, b: string)
    requires run != [] && forall i :: 0 <= i < |run| ==> IsSeparator(run[i])
    requires b == [] || !IsSeparator(b[0])
    ensures CollapseSeparators(run + b) == "-" + CollapseSeparators(b)
  {
    SkipSeparatorsRun(run, b);
    assert (run + b)[0] == run[0];
  }

  /**
   * Each maximal run of separators between two stretches of text becomes
   * exactly one '-', and the text on either side collapses on its own.
   */
  lemma CollapseSeparatorsRun(a: string, run: string, b: string)
    requires a == [] || !IsSeparator(a[|a| - 1])
    requires run != [] && forall i :: 0 <= i < |run| ==> IsSeparator(run[i])
    requires b == [] || !IsSeparator(b[0])
    ensures CollapseSeparators(a + run + b) == CollapseSeparators(a) + "-" + CollapseSeparators(b)
  {
    var rb := run + b;
    assert a + run + b == a + rb;
    CollapseSeparatorsConcat(a, rb);
    CollapseLeadingRun(run, b);
    Regroup(CollapseSeparators(a + rb), CollapseSeparators(a), CollapseSeparators(rb), "-", CollapseSeparators(b));
  }

  /** Text without separators is left as it is. */
  lemma {:induction false} CollapseSeparatorsNone(s: string)
    requires forall i :: 0 <= i < |s| ==> !IsSeparator(s[i])
    ensures CollapseSeparators(s) == s
    decreases |s|
  {
    if s != [] {
      CollapseSeparatorsNone(s[1..]);
    }
  }

  /** `s.lstrip('-')`. */
  function StripLeadingDashes(s: string): (r: string)
    ensures |r| <= |s| && r == s[|s| - |r|..]
    ensures r != [] ==> r[0] != '-'
  {
    if s != [] && s[0] == '-' then StripLeadingDashes(s[1..]) else s
  }

  /** `s.rstrip('-')`. */
  function StripTrailingDashes(s: string): (r: string)
    ensures |r| <= |s| && r == s[..|r|]
    ensures r != [] ==> r[|r| - 1] != '-'
  {
    if s != [] && s[|s| - 1] == '-' then StripTrailingDashes(s[..|s| - 1]) else s
  }

  /** Only '-' is stripped, so the word characters stay. */
  lemma {:induction false} StripLeadingDashesWords(s: string)
    ensures WordChars(StripLeadingDashes(s)) == WordChars(s)
  {
    if s != [] && s[0] == '-' {
      var t := s[1..];
      calc {
        WordChars(s);
        { assert s == [s[0]] + t; WordCharsCons(s[0], t); }
        WordChars(t);
        { StripLeadingDashesWords(t); }
        WordChars(StripLeadingDashes(t));
      }
    }
  }

  lemma {:induction false} StripTrailingDashesWords(s: string)
    ensures WordChars(StripTrailingDashes(s)) == WordChars(s)
  {
    if s != [] && s[|s| - 1] == '-' {
      var t := s[..|s| - 1];
      calc {
        WordChars(s);
        { assert s == t + [s[|s| - 1]]; WordCharsConcat(t, [s[|s| - 1]]); WordCharsCons('-', []); }
        WordChars(t) + [];
        WordChars(t);
        { StripTrailingDashesWords(t); }
        WordChars(StripTrailingDashes(t));
      }
    }
  }

  /** A slice of a safe text without "--" is one too. */
  lemma SliceKeepsSafe(s: string, lo: nat, hi: nat)
    requires lo <= hi <= |s|
    requires IsSafeText(s) && NoDoubleDash(s)
    ensures IsSafeText(s[lo..hi]) && NoDoubleDash(s[lo..hi])
  {
    var t := s[lo..hi];
    assert forall i :: 0 <= i < |t| ==> t[i] == s[lo + i];
    forall c | c in t
      ensures IsSafeChar(c)
    {
      var i :| 0 <= i < |t| && t[i] == c;
      assert s[lo + i] in s;
    }
  }

  /** The text before truncation. */
  function Cleaned(text: string): string
  {
    StripTrailingDashes(StripLeadingDashes(CollapseSeparators(DropUnsafe(Lower(text)))))
  }

  /** The collapsed text is safe: its characters are '-' or kept lower-case non-separators. */
  lemma CollapsedSafe(text: string)
    ensures IsSafeText(CollapseSeparators(DropUnsafe(Lower(text))))
    ensures NoDoubleDash(CollapseSeparators(DropUnsafe(Lower(text))))
  {
    LowerSpec(text);
    CollapseSeparatorsNoDoubleDash(DropUnsafe(Lower(text)));
  }

  /**
   * The cleaned text is made of safe characters, has no two '-' in a row and
   * no '-' at either end, and keeps exactly the word characters of the
   * lower-cased text.
   */
  lemma CleanedSpec(text: string)
    ensures var r := Cleaned(text);
            && IsSafeText(r)
            && NoDoubleDash(r)
            && (r != [] ==> r[0] != '-' && r[|r| - 1] != '-')
            && WordChars(r) == WordChars(Lower(text))
  {
    CleanedSafe(text);
    CleanedWords(text);
  }

  lemma CleanedSafe(text: string)
    ensures IsSafeText(Cleaned(text)) && NoDoubleDash(Cleaned(text))
  {
    var collapsed := CollapseSeparators(DropUnsafe(Lower(text)));
    CollapsedSafe(text);
    StripLeadingKeepsSafe(collapsed);
    StripTrailingKeepsSafe(StripLeadingDashes(collapsed));
  }

  lemma StripLeadingKeepsSafe(s: string)
    requires IsSafeText(s) && NoDoubleDash(s)
    ensures IsSafeText(StripLeadingDashes(s)) && NoDoubleDash(StripLeadingDashes(s))
  {
    var r := StripLeadingDashes(s);
    SliceKeepsSafe(s, |s| - |r|, |s|);
    assert r == s[|s| - |r|..|s|];
  }

  lemma StripTrailingKeepsSafe(s: string)
    requires IsSafeText(s) && NoDoubleDash(s)
    ensures IsSafeText(StripTrailingDashes(s)) && NoDoubleDash(StripTrailingDashes(s))
  {
    var r := StripTrailingDashes(s);
    SliceKeepsSafe(s, 0, |r|);
    assert r == s[0..|r|];
  }

  lemma CleanedWords(text: string)
    ensures WordChars(Cleaned(text)) == WordChars(Lower(text))
  {
    var kept := DropUnsafe(Lower(text));
    var collapsed := CollapseSeparators(kept);
    var leading := StripLeadingDashes(collapsed);
    calc {
      WordChars(Cleaned(text));
      { StripTrailingDashesWords(leading); }
      WordChars(leading);
      { StripLeadingDashesWords(collapsed); }
      WordChars(collapsed);
      { CollapseSeparatorsWords(kept); }
      WordChars(kept);
      { DropUnsafeWords(Lower(text)); }
      WordChars(Lower(text));
    }
  }

  const MaxNameLength := 50

  /** `sanitize_filename`. */
  function SanitizeFilename(text: string): string
  {
    var cleaned := Cleaned(text);
    if |cleaned| <= MaxNameLength then cleaned else cleaned[..MaxNameLength]
  }

  /**
   * A sanitised name has at most 50 characters, all lower-case letters,
   * digits, '_' or '-', never two '-' in a row and never a leading '-'.
   */
  lemma SanitizeFilenameSafe(text: string)
    ensures var r := SanitizeFilename(text);
            && |r| <= MaxNameLength
            && IsSafeText(r)
            && NoDoubleDash(r)
            && (r != [] ==> r[0] != '-')
  {
    var c := Cleaned(text);
    CleanedSpec(text);
    SliceKeepsSafe(c, 0, |SanitizeFilename(text)|);
  }

  /**
   * The word characters of a sanitised name are the first word characters
   * of the lower-cased text, in order, and all of them when the name is
   * shorter than the limit; the name is empty exactly when the text has no
   * word character.
   */
  lemma SanitizeFilenameWords(text: string)
    ensures WordChars(SanitizeFilename(text)) <= WordChars(Lower(text))
    ensures |SanitizeFilename(text)| < MaxNameLength ==> WordChars(SanitizeFilename(text)) == WordChars(Lower(text))
    ensures SanitizeFilename(text) == [] <==> forall c :: c in text ==> !IsWordChar(c)
  {
    var c, r := Cleaned(text), SanitizeFilename(text);
    CleanedWords(text);
    assert c == r + c[|r|..];
    WordCharsConcat(r, c[|r|..]);
    SanitizeFilenameEmpty(text);
  }

  /** The name is empty exactly when the text has no word character. */
  lemma SanitizeFilenameEmpty(text: string)
    ensures SanitizeFilename(text) == [] <==> forall c :: c in text ==> !IsWordChar(c)
  {
    var c, r := Cleaned(text), SanitizeFilename(text);
    CleanedSpec(text);
    LowerSpec(text);
    WordCharsEmpty(text);
    WordCharsEmpty(c);
    if c != [] {
      assert c[0] in c;
      assert IsWordChar(c[0]);
      assert r != [];
    } else {
      assert r == [];
    }
  }
}
