/**
 * What the tool prints about notes, as lines instead of console output: the note block under
 * a verse (`format_and_print_notes`) and the `/allnotes` listing.
 */
module Listing {
  import opened Wrappers
  import opened Dicts
  import opened Store
  import opened Resolver

  datatype Label = BookLabel | ChapterLabel | GroupLabel | IndividualLabel

  datatype Line =
    | NotesHeader                                            // `|| Notes:`
    | SectionHeading(section: Label)                           // `  [Book]`
    | NumberedNote(indent: nat, number: nat, text: string)   // `    1. text`
    | AllNotesHeader                                         // `--- All Notes ---`
    | AllNotesFooter                                         // `-----------------`
    | NoNotesFound                                           // `No notes found.`
    | BookHeading(book: string)                              // `[John]`
    | ChapterHeading(book: string, chapter: string)          // `  [John 3]`
    | VerseHeading(book: string, chapter: string, key: string) // `    [John 3:16]`

  /** `for i, note in enumerate(notes, 1)`: the notes numbered from 1. */
  function Numbered(indent: nat, notes: seq<string>): (r: seq<Line>)
    ensures |r| == |notes|
  {
    seq(|notes|, i requires 0 <= i < |notes| => NumberedNote(indent, i + 1, notes[i]))
  }

  // The note block.

  /** The four lists in the order they are printed, broadest first. */
  function Sections(ns: NoteSet): seq<(Label, seq<string>)> {
    [(BookLabel, ns.book), (ChapterLabel, ns.chapter), (GroupLabel, ns.group), (IndividualLabel, ns.individual)]
  }

  /** A list prints as its heading and its numbered notes, or not at all when it is empty. */
  function SectionLines(section: Label, notes: seq<string>): seq<Line> {
    if notes == [] then [] else [SectionHeading(section)] + Numbered(4, notes)
  }

  function Body(secs: seq<(Label, seq<string>)>): seq<Line>
    decreases |secs|
  {
    if secs == [] then []
    else Body(secs[..|secs| - 1]) + SectionLines(secs[|secs| - 1].0, secs[|secs| - 1].1)
  }

  /** The block printed under a verse: the header once, before the first non-empty list. */
  function NoteBlock(ns: NoteSet): seq<Line> {
    Headed(Body(Sections(ns)))
  }

  /** Printed lines under the `|| Notes:` header, or nothing when there are none. */
  function Headed(body: seq<Line>): seq<Line> {
    if body == [] then [] else [NotesHeader] + body
  }

  /** More printed lines go after what is already there, bringing the header with them when
      they are the first. */
  lemma HeadedSnoc(body: seq<Line>, more: seq<Line>)
    requires more != []
    ensures Headed(body + more) == (if body == [] then [NotesHeader] else Headed(body)) + more
  {
    if body == [] {
      assert body + more == more;
    } else {
      assert [NotesHeader] + (body + more) == ([NotesHeader] + body) + more;
    }
  }

  /** `format_and_print_notes`: one pass over the four lists, printing the header when the
      first non-empty list comes up. */
  method FormatNotes(ns: NoteSet) returns (lines: seq<Line>)
    ensures lines == NoteBlock(ns)
  {
    var secs := Sections(ns);
    var printed := false;
    lines := [];
    ghost var body: seq<Line> := [];
    for j := 0 to |secs|
      invariant body == Body(secs[..j])
      invariant printed == (body != [])
      invariant lines == Headed(body)
    {
      var (section, notes) := secs[j];
      BodySnoc(secs, j);
      if notes != [] {
        if !printed {
          lines := lines + [NotesHeader];
          printed := true;
          assert lines == [NotesHeader];
        }
        ghost var head := lines;
        assert head == (if body == [] then [NotesHeader] else Headed(body));
        var numbered := NumberNotes(4, notes);
        lines := lines + ([SectionHeading(section)] + numbered);
        HeadedSnoc(body, SectionLines(section, notes));
        assert lines == head + SectionLines(section, notes);
      } else {
        assert body + SectionLines(section, notes) == body;
      }
      body := body + SectionLines(section, notes);
    }
    assert secs[..|secs|] == secs;
  }

  /** The inner loop `for i, note in enumerate(notes, 1)`, producing the numbered lines. */
  method NumberNotes(indent: nat, notes: seq<string>) returns (lines: seq<Line>)
    ensures lines == Numbered(indent, notes)
  {
    lines := [];
    for i := 0 to |notes|
      invariant lines == Numbered(indent, notes[..i])
    {
      NumberedSnoc(indent, notes, i);
      lines := lines + [NumberedNote(indent, i + 1, notes[i])];
    }
    assert notes[..|notes|] == notes;
  }

  lemma BodySnoc(secs: seq<(Label, seq<string>)>, j: nat)
    requires j < |secs|
    ensures Body(secs[..j + 1]) == Body(secs[..j]) + SectionLines(secs[j].0, secs[j].1)
  {
    assert secs[..j + 1][..j] == secs[..j];
  }

  lemma NumberedSnoc(indent: nat, notes: seq<string>, i: nat)
    requires i < |notes|
    ensures Numbered(indent, notes[..i + 1]) == Numbered(indent, notes[..i]) + [NumberedNote(indent, i + 1, notes[i])]
  {
  }

  /** The four lists' lines, one after another. */
  lemma BodySections(ns: NoteSet)
    ensures Body(Sections(ns)) == SectionLines(BookLabel, ns.book) + SectionLines(ChapterLabel, ns.chapter)
      + SectionLines(GroupLabel, ns.group) + SectionLines(IndividualLabel, ns.individual)
  {
    var secs := Sections(ns);
    BodyFour(secs);
  }

  lemma BodyFour(secs: seq<(Label, seq<string>)>)
    requires |secs| == 4
    ensures Body(secs) == SectionLines(secs[0].0, secs[0].1) + SectionLines(secs[1].0, secs[1].1)
      + SectionLines(secs[2].0, secs[2].1) + SectionLines(secs[3].0, secs[3].1)
  {
    assert secs[..0] == [];
    BodySnoc(secs, 0);
    BodySnoc(secs, 1);
    BodySnoc(secs, 2);
    BodySnoc(secs, 3);
    Chain(Body(secs[..0]), Body(secs[..1]), Body(secs[..2]), Body(secs[..3]), Body(secs[..4]),
      SectionLines(secs[0].0, secs[0].1), SectionLines(secs[1].0, secs[1].1),
      SectionLines(secs[2].0, secs[2].1), SectionLines(secs[3].0, secs[3].1));
    assert secs[..4] == secs;
  }


  lemma Chain<T>(b0: seq<T>, b1: seq<T>, b2: seq<T>, b3: seq<T>, b4: seq<T>, l0: seq<T>, l1: seq<T>, l2: seq<T>, l3: seq<T>)
    requires b0 == [] && b1 == b0 + l0 && b2 == b1 + l1 && b3 == b2 + l2 && b4 == b3 + l3
    ensures b4 == l0 + l1 + l2 + l3
  {
    assert b1 == l0;
  }

  /** The labels of the headings among some lines, in order. */
  function Headings(lines: seq<Line>): seq<Label>
    decreases |lines|
  {
    if lines == [] then []
    else Headings(lines[..|lines| - 1]) + (if lines[|lines| - 1].SectionHeading? then [lines[|lines| - 1].section] else [])
  }

  /** The note texts among some lines, in order. */
  function Texts(lines: seq<Line>): seq<string>
    decreases |lines|
  {
    if lines == [] then []
    else Texts(lines[..|lines| - 1]) + (if lines[|lines| - 1].NumberedNote? then [lines[|lines| - 1].text] else [])
  }

  lemma {:induction false} HeadingsAppend(a: seq<Line>, b: seq<Line>)
    ensures Headings(a + b) == Headings(a) + Headings(b)
    decreases |b|
  {
    if b == [] {
      assert a + b == a;
    } else {
      var b' := b[..|b| - 1];
      assert (a + b)[..|a + b| - 1] == a + b';
      HeadingsAppend(a, b');
    }
  }

  lemma {:induction false} TextsAppend(a: seq<Line>, b: seq<Line>)
    ensures Texts(a + b) == Texts(a) + Texts(b)
    decreases |b|
  {
    if b == [] {
      assert a + b == a;
    } else {
      var b' := b[..|b| - 1];
      assert (a + b)[..|a + b| - 1] == a + b';
      TextsAppend(a, b');
    }
  }

  lemma {:induction false} NumberedFacts(indent: nat, notes: seq<string>)
    ensures Headings(Numbered(indent, notes)) == []
    ensures Texts(Numbered(indent, notes)) == notes
    ensures forall l :: l in Numbered(indent, notes) ==> l.NumberedNote?
    decreases |notes|
  {
    if notes != [] {
      var n := |notes| - 1;
      assert Numbered(indent, notes)[..n] == Numbered(indent, notes[..n]);
      NumberedFacts(indent, notes[..n]);
    }
  }

  /** Line i of a numbered list carries the number i + 1 and note i: the number `/delnote`
      takes for that note. */
  lemma NumberedNumbers(indent: nat, notes: seq<string>, i: nat)
    requires i < |notes|
    ensures Numbered(indent, notes)[i].number == i + 1
    ensures Numbered(indent, notes)[i].text == notes[i]
  {
  }

  lemma SectionFacts(section: Label, notes: seq<string>)
    ensures Headings(SectionLines(section, notes)) == if notes == [] then [] else [section]
    ensures Texts(SectionLines(section, notes)) == notes
    ensures NotesHeader !in SectionLines(section, notes)
    ensures SectionLines(section, notes) == [] <==> notes == []
  {
    if notes != [] {
      NumberedFacts(4, notes);
      HeadingsAppend([SectionHeading(section)], Numbered(4, notes));
      TextsAppend([SectionHeading(section)], Numbered(4, notes));
      assert Headings([SectionHeading(section)]) == [section] by {
        assert [SectionHeading(section)][..0] == [];
      }
      assert Texts([SectionHeading(section)]) == [] by {
        assert [SectionHeading(section)][..0] == [];
      }
    }
  }

  /** Only non-empty lists print, each under its own heading, in the order Book, Chapter,
      Group, Individual, and together they print every note of the four lists in that order. */
  lemma NoteBlockSections(ns: NoteSet)
    ensures Headings(NoteBlock(ns)) ==
      (if ns.book == [] then [] else [BookLabel]) + (if ns.chapter == [] then [] else [ChapterLabel])
      + (if ns.group == [] then [] else [GroupLabel]) + (if ns.individual == [] then [] else [IndividualLabel])
    ensures Texts(NoteBlock(ns)) == ns.book + ns.chapter + ns.group + ns.individual
  {
    var secs := Sections(ns);
    var l0 := SectionLines(BookLabel, ns.book);
    var l1 := SectionLines(ChapterLabel, ns.chapter);
    var l2 := SectionLines(GroupLabel, ns.group);
    var l3 := SectionLines(IndividualLabel, ns.individual);
    BodySections(ns);
    SectionFacts(BookLabel, ns.book);
    SectionFacts(ChapterLabel, ns.chapter);
    SectionFacts(GroupLabel, ns.group);
    SectionFacts(IndividualLabel, ns.individual);
    HeadingsAppend(l0, l1);
    HeadingsAppend(l0 + l1, l2);
    HeadingsAppend(l0 + l1 + l2, l3);
    TextsAppend(l0, l1);
    TextsAppend(l0 + l1, l2);
    TextsAppend(l0 + l1 + l2, l3);
    var body := Body(secs);
    if body != [] {
      HeadingsAppend([NotesHeader], body);
      TextsAppend([NotesHeader], body);
      assert [NotesHeader][..0] == [];
    }
  }

  /** `|| Notes:` is printed exactly once, first, when some list has notes, and never when
      all four are empty. */
  lemma NoteBlockHeader(ns: NoteSet)
    ensures var some := ns.book != [] || ns.chapter != [] || ns.group != [] || ns.individual != [];
      multiset(NoteBlock(ns))[NotesHeader] == (if some then 1 else 0)
      && (some ==> NoteBlock(ns)[0] == NotesHeader)
  {
    var secs := Sections(ns);
    var l0 := SectionLines(BookLabel, ns.book);
    var l1 := SectionLines(ChapterLabel, ns.chapter);
    var l2 := SectionLines(GroupLabel, ns.group);
    var l3 := SectionLines(IndividualLabel, ns.individual);
    BodySections(ns);
    var body := Body(secs);
    SectionFacts(BookLabel, ns.book);
    SectionFacts(ChapterLabel, ns.chapter);
    SectionFacts(GroupLabel, ns.group);
    SectionFacts(IndividualLabel, ns.individual);
    assert NotesHeader !in body;
    assert multiset(body)[NotesHeader] == 0;
    if body != [] {
      assert multiset([NotesHeader] + body) == multiset([NotesHeader]) + multiset(body);
    }
  }

  // The `/allnotes` listing.

  function VerseLines(book: string, chapter: string, key: string, notes: seq<string>): seq<Line> {
    if notes == [] then [] else [VerseHeading(book, chapter, key)] + Numbered(6, notes)
  }

  function VersesLines(book: string, chapter: string, verses: Dict<seq<string>>): seq<Line>
    decreases |verses|
  {
    if verses == [] then []
    else
      var last := verses[|verses| - 1];
      VersesLines(book, chapter, verses[..|verses| - 1]) + VerseLines(book, chapter, last.0, last.1)
  }

  function ChapterLines(book: string, chapter: string, ce: ChapterEntry): seq<Line> {
    (if ce.notes == [] then [] else [ChapterHeading(book, chapter)] + Numbered(4, ce.notes))
    + VersesLines(book, chapter, ce.verses)
  }

  function ChaptersLines(book: string, chapters: Dict<ChapterEntry>): seq<Line>
    decreases |chapters|
  {
    if chapters == [] then []
    else
      var last := chapters[|chapters| - 1];
      ChaptersLines(book, chapters[..|chapters| - 1]) + ChapterLines(book, last.0, last.1)
  }

  function BookLines(book: string, e: BookEntry): seq<Line> {
    (if e.notes == [] then [] else [BookHeading(book)] + Numbered(2, e.notes))
    + ChaptersLines(book, e.chapters)
  }

  function BooksLines(books: Books): seq<Line>
    decreases |books|
  {
    if books == [] then []
    else
      var last := books[|books| - 1];
      BooksLines(books[..|books| - 1]) + BookLines(last.0, last.1)
  }

  /** What `/allnotes` prints: every non-empty list of the store under its heading, books,
      chapters and verse keys in insertion order. */
  function AllNotesLines(books: Books): seq<Line> {
    if books == [] then [NoNotesFound] else [AllNotesHeader] + BooksLines(books) + [AllNotesFooter]
  }

  lemma VersesSnoc(book: string, chapter: string, verses: Dict<seq<string>>, k: nat)
    requires k < |verses|
    ensures VersesLines(book, chapter, verses[..k + 1])
      == VersesLines(book, chapter, verses[..k]) + VerseLines(book, chapter, verses[k].0, verses[k].1)
  {
    assert verses[..k + 1][..k] == verses[..k];
  }

  lemma ChaptersSnoc(book: string, chapters: Dict<ChapterEntry>, j: nat)
    requires j < |chapters|
    ensures ChaptersLines(book, chapters[..j + 1])
      == ChaptersLines(book, chapters[..j]) + ChapterLines(book, chapters[j].0, chapters[j].1)
  {
    assert chapters[..j + 1][..j] == chapters[..j];
  }

  lemma BooksSnoc(books: Books, i: nat)
    requires i < |books|
    ensures BooksLines(books[..i + 1]) == BooksLines(books[..i]) + BookLines(books[i].0, books[i].1)
  {
    assert books[..i + 1][..i] == books[..i];
  }

  /** The `/allnotes` lines of every book, in store order. */
  method ListBooks(books: Books) returns (lines: seq<Line>)
    ensures lines == BooksLines(books)
  {
    lines := [];
    for i := 0 to |books|
      invariant lines == BooksLines(books[..i])
    {
      var (book, e) := books[i];
      BooksSnoc(books, i);
      var bookLines := ListBook(book, e);
      lines := lines + bookLines;
    }
    assert books[..|books|] == books;
  }

  /** The `/allnotes` lines of one book: its own notes, then each chapter's in order. */
  method ListBook(book: string, e: BookEntry) returns (lines: seq<Line>)
    ensures lines == BookLines(book, e)
  {
    lines := [];
    if e.notes != [] {
      var numbered := NumberNotes(2, e.notes);
      lines := [BookHeading(book)] + numbered;
    }
    var chapterLines := ListChapters(book, e.chapters);
    lines := lines + chapterLines;
  }

  /** The `/allnotes` lines of a book's chapters, in store order. */
  method ListChapters(book: string, chapters: Dict<ChapterEntry>) returns (lines: seq<Line>)
    ensures lines == ChaptersLines(book, chapters)
  {
    lines := [];
    for j := 0 to |chapters|
      invariant lines == ChaptersLines(book, chapters[..j])
    {
      var (chapter, ce) := chapters[j];
      ChaptersSnoc(book, chapters, j);
      var chapterLines := ListChapter(book, chapter, ce);
      lines := lines + chapterLines;
    }
    assert chapters[..|chapters|] == chapters;
  }

  /** The `/allnotes` lines of one chapter: its own notes, then each verse key's in order. */
  method ListChapter(book: string, chapter: string, ce: ChapterEntry) returns (lines: seq<Line>)
    ensures lines == ChapterLines(book, chapter, ce)
  {
    lines := [];
    if ce.notes != [] {
      var numbered := NumberNotes(4, ce.notes);
      lines := [ChapterHeading(book, chapter)] + numbered;
    }
    var verseLines := ListVerses(book, chapter, ce.verses);
    lines := lines + verseLines;
  }

  /** The `/allnotes` lines of a chapter's verse keys, in store order. */
  method ListVerses(book: string, chapter: string, verses: Dict<seq<string>>) returns (lines: seq<Line>)
    ensures lines == VersesLines(book, chapter, verses)
  {
    lines := [];
    for k := 0 to |verses|
      invariant lines == VersesLines(book, chapter, verses[..k])
    {
      var (key, notes) := verses[k];
      VersesSnoc(book, chapter, verses, k);
      var verseLines := ListVerse(book, chapter, key, notes);
      lines := lines + verseLines;
    }
    assert verses[..|verses|] == verses;
  }

  /** The `/allnotes` lines of one verse key: none for an empty list. */
  method ListVerse(book: string, chapter: string, key: string, notes: seq<string>) returns (lines: seq<Line>)
    ensures lines == VerseLines(book, chapter, key, notes)
  {
    lines := [];
    if notes != [] {
      var numbered := NumberNotes(6, notes);
      lines := [VerseHeading(book, chapter, key)] + numbered;
    }
  }

  // Every note of the store, counted from the front.

  function VersesNotes(verses: Dict<seq<string>>): seq<string>
    decreases |verses|
  {
    if verses == [] then [] else verses[0].1 + VersesNotes(verses[1..])
  }

  function ChaptersNotes(chapters: Dict<ChapterEntry>): seq<string>
    decreases |chapters|
  {
    if chapters == [] then []
    else chapters[0].1.notes + VersesNotes(chapters[0].1.verses) + ChaptersNotes(chapters[1..])
  }

  /** Every note of the store: each book's own, then its chapters' with their verse keys'. */
  function StoreNotes(books: Books): seq<string>
    decreases |books|
  {
    if books == [] then []
    else books[0].1.notes + ChaptersNotes(books[0].1.chapters) + StoreNotes(books[1..])
  }

  lemma {:induction false} VersesNotesSnoc(verses: Dict<seq<string>>)
    requires verses != []
    ensures VersesNotes(verses) == VersesNotes(verses[..|verses| - 1]) + verses[|verses| - 1].1
    decreases |verses|
  {
    if |verses| > 1 {
      var v := verses[1..];
      assert v[..|v| - 1] == verses[..|verses| - 1][1..];
      VersesNotesSnoc(v);
    } else {
      assert verses[..0] == [];
    }
  }

  lemma {:induction false} ChaptersNotesSnoc(chapters: Dict<ChapterEntry>)
    requires chapters != []
    ensures var last := chapters[|chapters| - 1].1;
      ChaptersNotes(chapters) == ChaptersNotes(chapters[..|chapters| - 1]) + (last.notes + VersesNotes(last.verses))
    decreases |chapters|
  {
    if |chapters| > 1 {
      var c := chapters[1..];
      assert c[..|c| - 1] == chapters[..|chapters| - 1][1..];
      ChaptersNotesSnoc(c);
    } else {
      assert chapters[..0] == [];
    }
  }

  lemma {:induction false} StoreNotesSnoc(books: Books)
    requires books != []
    ensures var last := books[|books| - 1].1;
      StoreNotes(books) == StoreNotes(books[..|books| - 1]) + (last.notes + ChaptersNotes(last.chapters))
    decreases |books|
  {
    if |books| > 1 {
      var b := books[1..];
      assert b[..|b| - 1] == books[..|books| - 1][1..];
      StoreNotesSnoc(b);
    } else {
      assert books[..0] == [];
    }
  }

  lemma HeadedTexts(h: Line, indent: nat, notes: seq<string>)
    requires !h.NumberedNote?
    ensures Texts(if notes == [] then [] else [h] + Numbered(indent, notes)) == notes
  {
    if notes != [] {
      NumberedFacts(indent, notes);
      TextsAppend([h], Numbered(indent, notes));
      assert [h][..0] == [];
    }
  }

  lemma {:induction false} VersesTexts(book: string, chapter: string, verses: Dict<seq<string>>)
    ensures Texts(VersesLines(book, chapter, verses)) == VersesNotes(verses)
    decreases |verses|
  {
    if verses != [] {
      var init, last := verses[..|verses| - 1], verses[|verses| - 1];
      VersesTexts(book, chapter, init);
      TextsAppend(VersesLines(book, chapter, init), VerseLines(book, chapter, last.0, last.1));
      HeadedTexts(VerseHeading(book, chapter, last.0), 6, last.1);
      VersesNotesSnoc(verses);
    }
  }

  lemma ChapterTexts(book: string, chapter: string, ce: ChapterEntry)
    ensures Texts(ChapterLines(book, chapter, ce)) == ce.notes + VersesNotes(ce.verses)
  {
    var own := if ce.notes == [] then [] else [ChapterHeading(book, chapter)] + Numbered(4, ce.notes);
    HeadedTexts(ChapterHeading(book, chapter), 4, ce.notes);
    VersesTexts(book, chapter, ce.verses);
    TextsAppend(own, VersesLines(book, chapter, ce.verses));
  }

  lemma {:induction false} ChaptersTexts(book: string, chapters: Dict<ChapterEntry>)
    ensures Texts(ChaptersLines(book, chapters)) == ChaptersNotes(chapters)
    decreases |chapters|
  {
    if chapters != [] {
      var init, last := chapters[..|chapters| - 1], chapters[|chapters| - 1];
      ChaptersTexts(book, init);
      TextsAppend(ChaptersLines(book, init), ChapterLines(book, last.0, last.1));
      ChapterTexts(book, last.0, last.1);
      ChaptersNotesSnoc(chapters);
    }
  }

  lemma BookTexts(book: string, e: BookEntry)
    ensures Texts(BookLines(book, e)) == e.notes + ChaptersNotes(e.chapters)
  {
    var own := if e.notes == [] then [] else [BookHeading(book)] + Numbered(2, e.notes);
    HeadedTexts(BookHeading(book), 2, e.notes);
    ChaptersTexts(book, e.chapters);
    TextsAppend(own, ChaptersLines(book, e.chapters));
  }

  lemma {:induction false} BooksTexts(books: Books)
    ensures Texts(BooksLines(books)) == StoreNotes(books)
    decreases |books|
  {
    if books != [] {
      var init, last := books[..|books| - 1], books[|books| - 1];
      BooksTexts(init);
      TextsAppend(BooksLines(init), BookLines(last.0, last.1));
      BookTexts(last.0, last.1);
      StoreNotesSnoc(books);
    }
  }

  /** `/allnotes` prints every note of the store exactly once, in store order. */
  lemma AllNotesComplete(books: Books)
    ensures Texts(AllNotesLines(books)) == StoreNotes(books)
  {
    if books != [] {
      BooksTexts(books);
      Framed(BooksLines(books));
    }
  }

  /** The header and footer lines around the listing carry no note. */
  lemma Framed(body: seq<Line>)
    ensures Texts([AllNotesHeader] + body + [AllNotesFooter]) == Texts(body)
  {
    TextsAppend([AllNotesHeader], body);
    TextsAppend([AllNotesHeader] + body, [AllNotesFooter]);
    assert [AllNotesHeader][..0] == [] && [AllNotesFooter][..0] == [];
  }

  /** "No notes found." is printed exactly when the store has no book at all. */
  lemma AllNotesEmpty(books: Books)
    ensures (NoNotesFound in AllNotesLines(books)) <==> books == []
  {
    if books != [] {
      NoNoNotesFound(books);
    }
  }


  lemma {:induction false} NoNoNotesFound(books: Books)
    ensures NoNotesFound !in BooksLines(books)
    decreases |books|
  {
    if books != [] {
      NoNoNotesFound(books[..|books| - 1]);
      var last := books[|books| - 1];
      NumberedFacts(2, last.1.notes);
      NoNoNotesFoundChapters(last.0, last.1.chapters);
    }
  }

  lemma {:induction false} NoNoNotesFoundChapters(book: string, chapters: Dict<ChapterEntry>)
    ensures NoNotesFound !in ChaptersLines(book, chapters)
    decreases |chapters|
  {
    if chapters != [] {
      NoNoNotesFoundChapters(book, chapters[..|chapters| - 1]);
      var last := chapters[|chapters| - 1];
      NumberedFacts(4, last.1.notes);
      NoNoNotesFoundVerses(book, last.0, last.1.verses);
    }
  }

  lemma {:induction false} NoNoNotesFoundVerses(book: string, chapter: string, verses: Dict<seq<string>>)
    ensures NoNotesFound !in VersesLines(book, chapter, verses)
    decreases |verses|
  {
    if verses != [] {
      NoNoNotesFoundVerses(book, chapter, verses[..|verses| - 1]);
      NumberedFacts(6, verses[|verses| - 1].1);
    }
  }
}
