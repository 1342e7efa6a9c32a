/**
 * The reference parser: a trimmed string becomes a (book, chapter, verse key) triple.
 *
 * The source matches the stripped text against
 *   `^((\d\s)?[A-Za-z\s]+?)\s*(\d+)?(?::\s*([\d\-,]+))?$`
 * and, when that fails, against the book-only pattern `^((\d\s)?[A-Za-z\s]+)$`.
 * Here the first pattern is written twice: as `Reads`, the set of ways a string can be cut
 * into the pattern's parts, and as `Primary`, a deterministic scan. `ScanComplete` and
 * `ReadingDetermined` show the two agree; `FallbackUnreachable` shows the second pattern
 * never accepts a string the first one rejects.
 */
module References {
  import opened Wrappers
  import opened Text

  /** `(book, chapter, verse_key)`; all three None means the text is not a reference. */
  datatype Reference = Reference(book: Option<string>, chapter: Option<string>, verseKey: Option<string>)

  const Invalid := Reference(None, None, None)

  /** Python truthiness of an optional string: present and non-empty. */
  predicate Truthy(o: Option<string>) {
    o.Some? && o.value != ""
  }

  /** `[A-Za-z\s]`, the characters of a book name. */
  predicate IsNameChar(c: char) { IsLetter(c) || IsSpace(c) }

  /** `[\d\-,]`, the characters of a verse key. */
  predicate IsKeyChar(c: char) { IsDigit(c) || c == '-' || c == ',' }

  /** Length of the optional `(\d\s)` prefix, as the greedy `?` takes it. */
  function LeadLen(s: string): nat {
    if |s| >= 2 && IsDigit(s[0]) && IsSpace(s[1]) then 2 else 0
  }

  /** One way of cutting s into the parts of the primary pattern, by the positions where they
      end: the `(\d\s)?` prefix (0 or 2 characters), the name `[A-Za-z\s]+`, the gap `\s*`,
      the chapter `(\d+)?` (empty when the group is absent) and, when the verse group is
      present, the start of its key after `:` and `\s*`. */
  datatype Reading = Reading(lead: nat, nameEnd: nat, gapEnd: nat, chapterEnd: nat, keyStart: Option<nat>)

  ghost predicate Reads(s: string, d: Reading) {
    (d.lead == 0 || (d.lead == 2 && |s| >= 2 && IsDigit(s[0]) && IsSpace(s[1])))
    && d.lead < d.nameEnd <= d.gapEnd <= d.chapterEnd <= |s|
    && (forall j :: d.lead <= j < d.nameEnd ==> IsNameChar(s[j]))
    && (forall j :: d.nameEnd <= j < d.gapEnd ==> IsSpace(s[j]))
    && (forall j :: d.gapEnd <= j < d.chapterEnd ==> IsDigit(s[j]))
    && match d.keyStart
       case None => d.chapterEnd == |s|
       case Some(k) =>
         d.chapterEnd < k < |s| && s[d.chapterEnd] == ':'
         && (forall j :: d.chapterEnd < j < k ==> IsSpace(s[j]))
         && (forall j :: k <= j < |s| ==> IsKeyChar(s[j]))
  }

  /** Group 1 as the source returns it: stripped, then title-cased. */
  function BookName(group: string): string {
    Title(Strip(group))
  }

  /** What the source returns for a reading: group 1 stripped and title-cased, group 3 and group 4. */
  function Groups(s: string, d: Reading): Reference
    requires d.nameEnd <= d.gapEnd <= d.chapterEnd <= |s|
    requires d.keyStart.Some? ==> d.keyStart.value <= |s|
  {
    Reference(Some(BookName(s[..d.nameEnd])),
              if d.gapEnd == d.chapterEnd then None else Some(s[d.gapEnd..d.chapterEnd]),
              if d.keyStart.Some? then Some(s[d.keyStart.value..]) else None)
  }

  /** From position c, just after the chapter: the end of the text (no verse group, None), or
      `:`, spaces and a key running to the end (the key's start). Fails when neither fits. */
  function ScanVerse(s: string, c: nat): (r: Option<Option<nat>>)
    requires c <= |s|
    ensures r == Some(None) ==> c == |s|
    ensures r.Some? && r.value.Some? ==> var k := r.value.value;
      c < k < |s| && s[c] == ':'
      && (forall j :: c < j < k ==> IsSpace(s[j]))
      && (forall j :: k <= j < |s| ==> IsKeyChar(s[j]))
  {
    if c == |s| then Some(None)
    else if s[c] != ':' then None
    else
      var k := Span(s, c + 1, IsSpace);
      var e := Span(s, k, IsKeyChar);
      if k < e && e == |s| then Some(Some(k)) else None
  }

  /** The primary pattern as a left-to-right scan, giving the cut positions of the match it
      finds. The lazy name group and the `\s*` after it share the whitespace before the
      chapter; as the name is stripped afterwards, the scan gives the whole run of name
      characters to the name. */
  function Scan(s: string): (r: Option<Reading>)
    ensures r.Some? ==> Reads(s, r.value) && r.value.nameEnd == r.value.gapEnd
  {
    var p := LeadLen(s);
    var m := Span(s, p, IsNameChar);
    if m == p then None
    else
      var c := Span(s, m, IsDigit);
      match ScanVerse(s, c)
      case None => None
      case Some(key) => Some(Reading(p, m, m, c, key))
  }

  /** The groups of the match the primary pattern finds, None when it does not match. */
  function Primary(s: string): Option<Reference> {
    match Scan(s)
    case None => None
    case Some(d) => Some(Groups(s, d))
  }

  /** Whitespace between the lazy name group and the chapter does not change the stripped name. */
  lemma BookNameGap(s: string, n: nat, g: nat)
    requires n <= g <= |s|
    requires forall j :: n <= j < g ==> IsSpace(s[j])
    ensures BookName(s[..g]) == BookName(s[..n])
  {
    assert s[..g] == s[..n] + s[n..g];
    StripAppendSpaces(s[..n], s[n..g]);
  }

  /** The scan finds every reading, up to where the name ends inside the whitespace before
      the chapter. */
  lemma ScanComplete(s: string, d: Reading)
    requires Reads(s, d)
    ensures Scan(s) == Some(d.(nameEnd := d.gapEnd))
  {
    assert LeadLen(s) == d.lead by {
      if d.lead == 0 { assert IsNameChar(s[0]); }
    }
    assert d.gapEnd < |s| ==> IsDigit(s[d.gapEnd]) || s[d.gapEnd] == ':';
    SpanExact(s, d.lead, d.gapEnd, IsNameChar);
    SpanExact(s, d.gapEnd, d.chapterEnd, IsDigit);
    ScanVerseComplete(s, d);
  }

  lemma ScanVerseComplete(s: string, d: Reading)
    requires Reads(s, d)
    ensures ScanVerse(s, d.chapterEnd) == Some(d.keyStart)
  {
    if d.keyStart.Some? {
      var c, k := d.chapterEnd, d.keyStart.value;
      SpanExact(s, c + 1, k, IsSpace);
      SpanExact(s, k, |s|, IsKeyChar);
    }
  }

  /** Every way of reading s as the primary pattern yields the triple `Primary` computes: the
      pattern's groups do not depend on how the regex engine backtracks. */
  lemma ReadingDetermined(s: string, d: Reading)
    requires Reads(s, d)
    ensures Primary(s) == Some(Groups(s, d))
  {
    ScanComplete(s, d);
    BookNameGap(s, d.nameEnd, d.gapEnd);
  }

  /** `^((\d\s)?[A-Za-z\s]+)$`: the whole text is a book name. */
  predicate IsBookOnly(s: string) {
    LeadLen(s) < |s| && All(s[LeadLen(s)..], IsNameChar)
  }

  /** The book-only pattern accepts only texts the primary pattern accepts too. */
  lemma FallbackUnreachable(s: string)
    requires IsBookOnly(s)
    ensures Primary(s).Some?
  {
    var p := LeadLen(s);
    var d := Reading(p, |s|, |s|, |s|, None);
    assert forall j :: p <= j < |s| ==> IsNameChar(s[j]) by {
      forall j | p <= j < |s| ensures IsNameChar(s[j]) { assert s[j] == s[p..][j - p]; }
    }
    assert Reads(s, d);
    ReadingDetermined(s, d);
  }

  /** `parse_reference`: strip, match the primary pattern, else the book-only pattern, else invalid. */
  function ParseReference(text: string): Reference {
    var s := Strip(text);
    match Primary(s)
    case Some(r) => r
    case None => if IsBookOnly(s) then Reference(Some(Title(s)), None, None) else Invalid
  }

  /** A stripped book group is non-empty, has no surrounding whitespace and is title-cased. */
  lemma BookNameNormal(s: string, d: Reading)
    requires Reads(s, d)
    requires s == [] || !IsSpace(s[0])
    ensures IsNormalBook(BookName(s[..d.nameEnd]))
  {
    var x := s[..d.nameEnd];
    assert x[0] == s[0];
    assert !All(x, IsSpace);
    var y := Strip(x);
    TitleNormalises(y);
    assert !IsSpace(Title(y)[0]) && !IsSpace(Title(y)[|y| - 1]);
  }

  /** The groups of a reading: the book as `BookNameNormal` says, the chapter a run of digits,
      the key a run of digits, hyphens and commas. */
  lemma GroupsNormal(s: string, d: Reading)
    requires Reads(s, d)
    requires s == [] || !IsSpace(s[0])
    ensures var r := Groups(s, d);
      r.book.Some? && IsNormalBook(r.book.value)
      && (r.chapter.Some? ==> |r.chapter.value| > 0 && All(r.chapter.value, IsDigit))
      && (r.verseKey.Some? ==> |r.verseKey.value| > 0 && All(r.verseKey.value, IsKeyChar))
  {
    BookNameNormal(s, d);
    ChapterNormal(s, d);
    KeyNormal(s, d);
  }

  lemma ChapterNormal(s: string, d: Reading)
    requires Reads(s, d)
    ensures var c := Groups(s, d).chapter; c.Some? ==> |c.value| > 0 && All(c.value, IsDigit)
  {
    SliceAll(s, d.gapEnd, d.chapterEnd, IsDigit);
  }

  lemma KeyNormal(s: string, d: Reading)
    requires Reads(s, d)
    ensures var k := Groups(s, d).verseKey; k.Some? ==> |k.value| > 0 && All(k.value, IsKeyChar)
  {
    if d.keyStart.Some? {
      SuffixAll(s, d.keyStart.value, IsKeyChar);
    }
  }

  /** A run of characters satisfying p, cut out of s, satisfies p throughout. */
  lemma SliceAll(s: string, i: nat, j: nat, p: char -> bool)
    requires i <= j <= |s|
    requires forall k :: i <= k < j ==> p(s[k])
    ensures All(s[i..j], p)
  {
    var c := s[i..j];
    assert forall k :: 0 <= k < |c| ==> c[k] == s[i + k];
  }

  lemma SuffixAll(s: string, i: nat, p: char -> bool)
    requires i <= |s|
    requires forall k :: i <= k < |s| ==> p(s[k])
    ensures All(s[i..], p)
  {
    var c := s[i..];
    assert forall k :: 0 <= k < |c| ==> c[k] == s[i + k];
  }

  /** A book as the parser returns it: non-empty, no surrounding whitespace, title-cased. */
  ghost predicate IsNormalBook(b: string) {
    |b| > 0 && !IsSpace(b[0]) && !IsSpace(b[|b| - 1]) && IsTitled(b)
  }

  /** Whatever `parse_reference` returns is normalised; texts the patterns reject give the
      all-None triple. */
  lemma ParseNormalised(text: string)
    ensures var r := ParseReference(text);
      (r.book.None? ==> r == Invalid)
      && (r.book.Some? ==> IsNormalBook(r.book.value))
      && (r.chapter.Some? ==> |r.chapter.value| > 0 && All(r.chapter.value, IsDigit))
      && (r.verseKey.Some? ==> |r.verseKey.value| > 0 && All(r.verseKey.value, IsKeyChar))
  {
    var s := Strip(text);
    match Scan(s)
    case Some(d) =>
      GroupsNormal(s, d);
      assert ParseReference(text) == Groups(s, d);
    case None =>
      if IsBookOnly(s) {
        FallbackUnreachable(s);
      }
  }

  /** Texts that are empty or all whitespace are invalid references. */
  lemma ParseBlank(text: string)
    requires All(text, IsSpace)
    ensures ParseReference(text) == Invalid
  {
    assert Strip(text) == [];
  }

  /** The character classes of the patterns do not see letter case. */
  lemma ClassesCaseBlind(s: string, t: string)
    requires CaseEq(s, t)
    ensures forall k :: 0 <= k < |s| ==>
      IsNameChar(s[k]) == IsNameChar(t[k]) && IsDigit(s[k]) == IsDigit(t[k])
      && IsSpace(s[k]) == IsSpace(t[k]) && IsKeyChar(s[k]) == IsKeyChar(t[k])
      && (!IsLetter(s[k]) ==> s[k] == t[k])
  {
    forall k | 0 <= k < |s|
      ensures IsNameChar(s[k]) == IsNameChar(t[k]) && IsDigit(s[k]) == IsDigit(t[k])
      ensures IsSpace(s[k]) == IsSpace(t[k]) && IsKeyChar(s[k]) == IsKeyChar(t[k])
      ensures !IsLetter(s[k]) ==> s[k] == t[k]
    {
      FoldFacts(s[k], t[k]);
    }
  }

  lemma ScanVerseCaseInsensitive(s: string, t: string, c: nat)
    requires CaseEq(s, t) && c <= |s|
    ensures ScanVerse(s, c) == ScanVerse(t, c)
  {
    ClassesCaseBlind(s, t);
    if c < |s| && s[c] == ':' {
      SpanAgree(s, t, c + 1, IsSpace);
      SpanAgree(s, t, Span(s, c + 1, IsSpace), IsKeyChar);
    }
  }

  /** The scan cuts texts that differ only in letter case at the same positions. */
  lemma ScanCaseInsensitive(s: string, t: string)
    requires CaseEq(s, t)
    ensures Scan(s) == Scan(t)
  {
    ClassesCaseBlind(s, t);
    var p := LeadLen(s);
    assert LeadLen(t) == p;
    SpanAgree(s, t, p, IsNameChar);
    var m := Span(s, p, IsNameChar);
    SpanAgree(s, t, m, IsDigit);
    ScanVerseCaseInsensitive(s, t, Span(s, m, IsDigit));
  }

  lemma BookNameCaseInsensitive(x: string, y: string)
    requires CaseEq(x, y)
    ensures BookName(x) == BookName(y)
  {
    StripCaseEq(x, y);
    TitleCaseEq(Strip(x), Strip(y));
  }

  /** Texts that differ only in letter case have the same groups: the book is title-cased and
      the chapter and key hold no letters. */
  lemma PrimaryCaseInsensitive(s: string, t: string)
    requires CaseEq(s, t)
    ensures Primary(s) == Primary(t)
  {
    ScanCaseInsensitive(s, t);
    if Scan(s).Some? {
      GroupsCaseInsensitive(s, t, Scan(s).value);
    }
  }

  /** A reading of s cuts t, which differs from s only in letter case, into the same groups. */
  lemma GroupsCaseInsensitive(s: string, t: string, d: Reading)
    requires CaseEq(s, t) && Reads(s, d)
    ensures Groups(s, d) == Groups(t, d)
  {
    ClassesCaseBlind(s, t);
    assert s[d.gapEnd..d.chapterEnd] == t[d.gapEnd..d.chapterEnd];
    if d.keyStart.Some? {
      assert s[d.keyStart.value..] == t[d.keyStart.value..];
    }
    BookNameCaseInsensitive(s[..d.nameEnd], t[..d.nameEnd]);
  }

  /** Letter case does not matter to the parser. */
  lemma ParseCaseInsensitive(a: string, b: string)
    requires CaseEq(a, b)
    ensures ParseReference(a) == ParseReference(b)
  {
    StripCaseEq(a, b);
    var s, t := Strip(a), Strip(b);
    PrimaryCaseInsensitive(s, t);
    if Primary(s).None? && IsBookOnly(s) {
      FallbackUnreachable(s);
    }
    if Primary(t).None? && IsBookOnly(t) {
      FallbackUnreachable(t);
    }
  }

  // The examples of the source's docstring. Each is shown by a reading of the text and the
  // groups of that reading.

  lemma ParsesAs(s: string, d: Reading, r: Reference)
    requires |s| > 0 && !IsSpace(s[0]) && !IsSpace(s[|s| - 1])
    requires Reads(s, d) && Groups(s, d) == r
    ensures ParseReference(s) == r
  {
    ReadingDetermined(s, d);
  }

  lemma JohnReads()
    ensures Reads("John 3:16", Reading(0, 4, 5, 6, Some(7)))
  {
  }

  /** "John 3:" followed by a verse key is cut into John, 3 and the key. */
  lemma JohnGroups(key: string)
    ensures Groups("John 3:" + key, Reading(0, 4, 5, 6, Some(7))) == Reference(Some("John"), Some("3"), Some(key))
  {
    var s := "John 3:" + key;
    assert s[..4] == "John" && s[5..6] == "3" && s[7..] == key;
    JohnName();
  }

  /** `parse_reference("John 3:16")` is `("John", "3", "16")`. */
  lemma ExampleVerse()
    ensures ParseReference("John 3:16") == Reference(Some("John"), Some("3"), Some("16"))
  {
    JohnReads();
    JohnGroups("16");
    assert "John 3:" + "16" == "John 3:16";
    ParsesAs("John 3:16", Reading(0, 4, 5, 6, Some(7)), Reference(Some("John"), Some("3"), Some("16")));
  }

  lemma FirstJohnReads()
    ensures Reads("1 john 3:16-18", Reading(2, 6, 7, 8, Some(9)))
  {
  }

  lemma FirstJohnGroups()
    ensures Groups("1 john 3:16-18", Reading(2, 6, 7, 8, Some(9))) == Reference(Some("1 John"), Some("3"), Some("16-18"))
  {
    var s := "1 john 3:16-18";
    assert s[..6] == "1 john" && s[7..8] == "3" && s[9..] == "16-18";
    FirstJohnName();
  }

  lemma FirstJohnName()
    ensures BookName("1 john") == "1 John"
  {
    assert Strip("1 john") == "1 john";
    FirstJohnTitle();
  }

  lemma FirstJohnTitle()
    ensures Title("1 john") == "1 John"
  {
  }

  /** A numbered book, in lower case, with a verse range: `("1 John", "3", "16-18")`. */
  lemma ExampleNumberedBook()
    ensures ParseReference("1 john 3:16-18") == Reference(Some("1 John"), Some("3"), Some("16-18"))
  {
    FirstJohnReads();
    FirstJohnGroups();
    ParsesAs("1 john 3:16-18", Reading(2, 6, 7, 8, Some(9)), Reference(Some("1 John"), Some("3"), Some("16-18")));
  }

  lemma RuthReads()
    ensures Reads("ruth", Reading(0, 4, 4, 4, None))
  {
  }

  lemma RuthGroups()
    ensures Groups("ruth", Reading(0, 4, 4, 4, None)) == Reference(Some("Ruth"), None, None)
  {
    var s := "ruth";
    assert s[..4] == s;
    assert Strip(s) == s;
    assert Title(s) == "Ruth";
  }

  /** A book alone: `("Ruth", None, None)`. */
  lemma ExampleBookOnly()
    ensures ParseReference("ruth") == Reference(Some("Ruth"), None, None)
  {
    RuthReads();
    RuthGroups();
    ParsesAs("ruth", Reading(0, 4, 4, 4, None), Reference(Some("Ruth"), None, None));
  }

  lemma JohnName()
    ensures BookName("John") == "John"
  {
    assert Strip("John") == "John";
    TitleOfTitled("John");
  }

  lemma JohnRangeReads()
    ensures Reads("John 3:16-17", Reading(0, 4, 5, 6, Some(7)))
  {
  }

  /** `parse_reference("John 3:16-17")` is `("John", "3", "16-17")`. */
  lemma ExampleVerseRange()
    ensures ParseReference("John 3:16-17") == Reference(Some("John"), Some("3"), Some("16-17"))
  {
    JohnRangeReads();
    JohnGroups("16-17");
    assert "John 3:" + "16-17" == "John 3:16-17";
    ParsesAs("John 3:16-17", Reading(0, 4, 5, 6, Some(7)), Reference(Some("John"), Some("3"), Some("16-17")));
  }

  lemma JohnChapterReads()
    ensures Reads("John 3", Reading(0, 4, 5, 6, None))
  {
  }

  lemma JohnChapterGroups()
    ensures Groups("John 3", Reading(0, 4, 5, 6, None)) == Reference(Some("John"), Some("3"), None)
  {
    var s := "John 3";
    assert s[..4] == "John" && s[5..6] == "3";
    JohnName();
  }

  /** `parse_reference("John 3")` is `("John", "3", None)`. */
  lemma ExampleChapter()
    ensures ParseReference("John 3") == Reference(Some("John"), Some("3"), None)
  {
    JohnChapterReads();
    JohnChapterGroups();
    ParsesAs("John 3", Reading(0, 4, 5, 6, None), Reference(Some("John"), Some("3"), None));
  }

  lemma JohnBookReads()
    ensures Reads("John", Reading(0, 4, 4, 4, None))
  {
  }

  lemma JohnBookGroups()
    ensures Groups("John", Reading(0, 4, 4, 4, None)) == Reference(Some("John"), None, None)
  {
    var s := "John";
    assert s[..4] == s;
    JohnName();
  }

  /** `parse_reference("John")` is `("John", None, None)`. */
  lemma ExampleBook()
    ensures ParseReference("John") == Reference(Some("John"), None, None)
  {
    JohnBookReads();
    JohnBookGroups();
    ParsesAs("John", Reading(0, 4, 4, 4, None), Reference(Some("John"), None, None));
  }

  lemma NumberedJohnReads()
    ensures Reads("1 John 3:16", Reading(2, 6, 7, 8, Some(9)))
  {
  }

  lemma NumberedJohnGroups()
    ensures Groups("1 John 3:16", Reading(2, 6, 7, 8, Some(9))) == Reference(Some("1 John"), Some("3"), Some("16"))
  {
    var s := "1 John 3:16";
    assert s[..6] == "1 John" && s[7..8] == "3" && s[9..] == "16";
    NumberedJohnName();
  }

  lemma NumberedJohnName()
    ensures BookName("1 John") == "1 John"
  {
    assert Strip("1 John") == "1 John";
    TitleOfTitled("1 John");
  }

  /** `parse_reference("1 John 3:16")` is `("1 John", "3", "16")`. */
  lemma ExampleNumbered()
    ensures ParseReference("1 John 3:16") == Reference(Some("1 John"), Some("3"), Some("16"))
  {
    NumberedJohnReads();
    NumberedJohnGroups();
    ParsesAs("1 John 3:16", Reading(2, 6, 7, 8, Some(9)), Reference(Some("1 John"), Some("3"), Some("16")));
  }
}
