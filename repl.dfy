/**
 * The prompt's view of the note store: the global dictionary as the field of one object, the
 * `/addnote`, `/delnote` and `/allnotes` commands as its methods, and the note lookup that the
 * verse display does for every verse it shows.
 */
module Repl {
  import opened Wrappers
  import opened Text
  import opened Dicts
  import opened References
  import opened Store
  import opened Resolver
  import opened Listing
  import opened Query

  datatype AddOutcome =
    | AddUsage                    // fewer than three tokens
    | AddInvalidReference         // the reference has no book
    | Added(scope: Scope)         // the list the note went to

  datatype DeleteOutcome =
    | DeleteUsage                 // not exactly three tokens
    | DeleteInvalidReference      // the reference has no book
    | NotANumber                  // `int()` rejects the note number
    | NotFound                    // a container on the way is missing
    | OutOfRange(size: nat)       // the number is not in 1..size
    | Deleted(number: nat, note: string)

  /** One entry of the verse service's answer; a missing field is None. */
  datatype ApiVerse = ApiVerse(ref: Option<string>, text: Option<string>)

  /** What is shown for one verse: its reference, its stripped text and its note block. */
  datatype ShownVerse = ShownVerse(reference: string, text: string, notes: seq<Line>)

  datatype Display =
    | VerseNotFound                                      // no answer, or no verses in it
    | Verses(shown: seq<ShownVerse>, count: nat, clipboard: Option<string>)

  /** `verse.get("ref", "No Reference")`. */
  function ReferenceOf(v: ApiVerse): string {
    v.ref.GetOr("No Reference")
  }

  /** `verse.get("text", "No Text").strip()`. */
  function TextOf(v: ApiVerse): string {
    Strip(v.text.GetOr("No Text"))
  }

  /** The notes under a verse: none at level 0 or when its reference names no book, else the
      note block of the lists its parsed reference resolves to. */
  function VerseNotes(books: Books, reference: string, level: int): seq<Line> {
    if level <= 0 then []
    else
      var r := ParseReference(reference);
      if Truthy(r.book) then NoteBlock(Resolve(books, r.book, r.chapter, r.verseKey, level)) else []
  }

  function ShowOne(books: Books, v: ApiVerse, level: int): ShownVerse {
    ShownVerse(ReferenceOf(v), TextOf(v), VerseNotes(books, ReferenceOf(v), level))
  }

  /** What the verses show, in the order of the answer. */
  function ShownAll(books: Books, vs: seq<ApiVerse>, level: int): seq<ShownVerse> {
    MapSeq(v => ShowOne(books, v, level), vs)
  }

  lemma ShownAllSnoc(books: Books, vs: seq<ApiVerse>, level: int, i: nat)
    requires i < |vs|
    ensures ShownAll(books, vs[..i + 1], level) == ShownAll(books, vs[..i], level) + [ShowOne(books, vs[i], level)]
  {
    MapSeqSnoc(v => ShowOne(books, v, level), vs, i);
  }

  /** One shown verse per verse of the answer, each what `ShowOne` makes of it. */
  lemma ShownAllAt(books: Books, vs: seq<ApiVerse>, level: int)
    ensures |ShownAll(books, vs, level)| == |vs|
    ensures forall k :: 0 <= k < |vs| ==> ShownAll(books, vs, level)[k] == ShowOne(books, vs[k], level)
  {
    MapSeqAt(v => ShowOne(books, v, level), vs);
  }

  /** The clipboard entry of a verse: its reference, a space, its text. */
  function EntryOf(v: ApiVerse): string {
    ReferenceOf(v) + " " + TextOf(v)
  }

  /** The clipboard entries, in the order of the answer. */
  function Entries(vs: seq<ApiVerse>): seq<string> {
    MapSeq(EntryOf, vs)
  }

  /** One clipboard entry per verse of the answer: its reference, a space and its text. */
  lemma EntriesAt(vs: seq<ApiVerse>)
    ensures |Entries(vs)| == |vs|
    ensures forall k :: 0 <= k < |vs| ==> Entries(vs)[k] == EntryOf(vs[k])
  {
    MapSeqAt(EntryOf, vs);
  }

  /** f applied to each element, built from the front as the display loop builds its lists. */
  function MapSeq<A, B>(f: A -> B, xs: seq<A>): seq<B>
    decreases |xs|
  {
    if xs == [] then [] else MapSeq(f, xs[..|xs| - 1]) + [f(xs[|xs| - 1])]
  }

  lemma MapSeqSnoc<A, B>(f: A -> B, xs: seq<A>, i: nat)
    requires i < |xs|
    ensures MapSeq(f, xs[..i + 1]) == MapSeq(f, xs[..i]) + [f(xs[i])]
  {
    assert xs[..i + 1][..i] == xs[..i];
  }

  lemma {:induction false} MapSeqAt<A, B>(f: A -> B, xs: seq<A>)
    ensures |MapSeq(f, xs)| == |xs|
    ensures forall k :: 0 <= k < |xs| ==> MapSeq(f, xs)[k] == f(xs[k])
    decreases |xs|
  {
    if xs != [] {
      var init := xs[..|xs| - 1];
      MapSeqAt(f, init);
      forall k | 0 <= k < |xs| ensures MapSeq(f, xs)[k] == f(xs[k]) {
        if k < |xs| - 1 {
          assert init[k] == xs[k];
        }
      }
    }
  }

  /** What deleting note n (1-based) from the list at t does: a missing list is not found, a
      number outside 1..size is out of range, and both leave the store as it was; otherwise
      that note is removed with `Remove` and reported. */
  predicate Deletes(before: Books, after: Books, t: Scope, n: int, outcome: DeleteOutcome) {
    match NotesAt(before, t)
    case None => outcome == NotFound && after == before
    case Some(l) =>
      if 1 <= n <= |l| then outcome == Deleted(n, l[n - 1]) && after == Remove(before, t, n - 1)
      else outcome == OutOfRange(|l|) && after == before
  }

  class NoteStore {
    var books: Books

    /** A missing or unreadable notes file: the store starts empty. */
    constructor ()
      ensures books == []
    {
      books := [];
    }

    /** The store as loaded from the notes file. */
    constructor Loaded(saved: Books)
      ensures books == saved
    {
      books := saved;
    }

    /** `/addnote "<reference>" <note>`: the note is the tokens after the reference joined by
        spaces, and goes to the list the reference names. */
    method AddNote(parts: seq<string>) returns (outcome: AddOutcome)
      modifies this
      ensures |parts| < 3 ==> outcome == AddUsage && books == old(books)
      ensures |parts| >= 3 ==>
        match TargetOf(ParseReference(parts[1]))
        case None => outcome == AddInvalidReference && books == old(books)
        case Some(t) => outcome == Added(t) && books == Insert(old(books), t, Join(" ", parts[2..]))
    {
      if |parts| < 3 {
        return AddUsage;
      }
      var refString, noteText := parts[1], Join(" ", parts[2..]);
      var r := ParseReference(refString);
      var target := TargetOf(r);
      if target.None? {
        return AddInvalidReference;
      }
      AddAt(target.value, noteText);
      outcome := Added(target.value);
    }

    /** Appending to the list at t: the book's when there is no chapter, the chapter's when
        there is no verse key, else the verse key's, creating the containers on the way. Each
        nested write stores the changed entry back at every level above it. */
    method AddAt(t: Scope, noteText: string)
      modifies this
      ensures books == Insert(old(books), t, noteText)
    {
      ghost var before := books;
      var book := t.book;
      EnsureBook(book);
      ghost var e0 := Get(before, book).GetOr(NewBook);
      match t
      case BookScope(_) =>
        var e := Get(books, book).value;
        var e' := e.(notes := e.notes + [noteText]);
        books := Put(books, book, e');
        PutPut(before, book, e0, e');
      case ChapterScope(_, chapter) =>
        EnsureChapter(book, chapter);
        ghost var ce0 := Get(e0.chapters, chapter).GetOr(NewChapter);
        PutPut(before, book, e0, e0.(chapters := Put(e0.chapters, chapter, ce0)));
        var e := Get(books, book).value;
        var ce := Get(e.chapters, chapter).value;
        var e' := e.(chapters := Put(e.chapters, chapter, ce.(notes := ce.notes + [noteText])));
        books := Put(books, book, e');
        PutPut(before, book, e, e');
        PutPut(e0.chapters, chapter, ce0, ce.(notes := ce.notes + [noteText]));
      case VerseScope(_, chapter, key) =>
        EnsureChapter(book, chapter);
        ghost var ce0 := Get(e0.chapters, chapter).GetOr(NewChapter);
        PutPut(before, book, e0, e0.(chapters := Put(e0.chapters, chapter, ce0)));
        ghost var mid := books;
        EnsureVerse(book, chapter, key);
        ghost var l0 := Get(ce0.verses, key).GetOr([]);
        var e := Get(books, book).value;
        var ce := Get(e.chapters, chapter).value;
        var l := Get(ce.verses, key).value;
        var ce' := ce.(verses := Put(ce.verses, key, l + [noteText]));
        var e' := e.(chapters := Put(e.chapters, chapter, ce'));
        books := Put(books, book, e');
        VerseAdded(before, book, chapter, key, e0, ce0, l0, mid, e, ce, l, noteText, books);
    }

    /** `if book not in bible_notes`: create the book's entry. */
    method EnsureBook(book: string)
      modifies this
      ensures books == Put(old(books), book, Get(old(books), book).GetOr(NewBook))
      ensures Get(books, book) == Some(Get(old(books), book).GetOr(NewBook))
    {
      if Get(books, book).None? {
        books := Put(books, book, NewBook);
      } else {
        PutSame(books, book, Get(books, book).value);
      }
      GetPut(old(books), book, Get(old(books), book).GetOr(NewBook));
    }

    /** `if chapter not in bible_notes[book]["chapters"]`: create the chapter's entry. */
    method EnsureChapter(book: string, chapter: string)
      modifies this
      requires Get(books, book).Some?
      ensures var e := Get(old(books), book).value;
        var e' := e.(chapters := Put(e.chapters, chapter, Get(e.chapters, chapter).GetOr(NewChapter)));
        books == Put(old(books), book, e') && Get(books, book) == Some(e')
        && Get(e'.chapters, chapter) == Some(Get(e.chapters, chapter).GetOr(NewChapter))
    {
      var e := Get(books, book).value;
      var ce := Get(e.chapters, chapter).GetOr(NewChapter);
      if Get(e.chapters, chapter).None? {
        books := Put(books, book, e.(chapters := Put(e.chapters, chapter, NewChapter)));
      } else {
        PutSame(e.chapters, chapter, ce);
        PutSame(books, book, e);
      }
      GetPut(old(books), book, e.(chapters := Put(e.chapters, chapter, ce)));
      GetPut(e.chapters, chapter, ce);
    }

    /** `if verse_key not in ...["verses"]`: create the verse key's empty list. */
    method EnsureVerse(book: string, chapter: string, key: string)
      modifies this
      requires Get(books, book).Some? && Get(Get(books, book).value.chapters, chapter).Some?
      ensures var e := Get(old(books), book).value;
        var ce := Get(e.chapters, chapter).value;
        var ce' := ce.(verses := Put(ce.verses, key, Get(ce.verses, key).GetOr([])));
        var e' := e.(chapters := Put(e.chapters, chapter, ce'));
        books == Put(old(books), book, e') && Get(books, book) == Some(e')
        && Get(e'.chapters, chapter) == Some(ce')
        && Get(ce'.verses, key) == Some(Get(ce.verses, key).GetOr([]))
    {
      var e := Get(books, book).value;
      var ce := Get(e.chapters, chapter).value;
      var l := Get(ce.verses, key).GetOr([]);
      if Get(ce.verses, key).None? {
        books := Put(books, book, e.(chapters := Put(e.chapters, chapter, ce.(verses := Put(ce.verses, key, [])))));
      } else {
        PutSame(ce.verses, key, l);
        PutSame(e.chapters, chapter, ce);
        PutSame(books, book, e);
      }
      var ce' := ce.(verses := Put(ce.verses, key, l));
      GetPut(old(books), book, e.(chapters := Put(e.chapters, chapter, ce')));
      GetPut(e.chapters, chapter, ce');
      GetPut(ce.verses, key, l);
    }

    /** `/delnote "<reference>" <number>`: `int()` reads the number before any lookup; the
        list the reference names must exist and hold the number in 1..size; then `pop` takes
        that note out and reports it. Every other outcome leaves the store as it was. */
    method DeleteNote(parts: seq<string>) returns (outcome: DeleteOutcome)
      modifies this
      ensures |parts| != 3 ==> outcome == DeleteUsage && books == old(books)
      ensures |parts| == 3 ==>
        match TargetOf(ParseReference(parts[1]))
        case None => outcome == DeleteInvalidReference && books == old(books)
        case Some(t) =>
          match ParseInt(parts[2])
          case None => outcome == NotANumber && books == old(books)
          case Some(n) => Deletes(old(books), books, t, n, outcome)
    {
      if |parts| != 3 {
        return DeleteUsage;
      }
      var refString, numberText := parts[1], parts[2];
      outcome := DeleteParsed(TargetOf(ParseReference(refString)), ParseInt(numberText));
    }

    /** The reference has no book, else `int()` rejects the number, else the lookup and the pop. */
    method DeleteParsed(target: Option<Scope>, number: Option<int>) returns (outcome: DeleteOutcome)
      modifies this
      ensures target.None? ==> outcome == DeleteInvalidReference && books == old(books)
      ensures target.Some? && number.None? ==> outcome == NotANumber && books == old(books)
      ensures target.Some? && number.Some? ==> Deletes(old(books), books, target.value, number.value, outcome)
    {
      if target.None? {
        return DeleteInvalidReference;
      }
      if number.None? {
        return NotANumber;
      }
      outcome := DeleteAt(target.value, number.value);
    }

    /** The `try` block of `/delnote`: look up the list at t, then `pop` note n (1-based) when
        it is in range. Only the pop changes the store. */
    method DeleteAt(t: Scope, n: int) returns (outcome: DeleteOutcome)
      modifies this
      ensures Deletes(old(books), books, t, n, outcome)
    {
      var noteNum := n - 1;
      var target := NotesAt(books, t);
      if target.None? {
        return NotFound;
      }
      var l := target.value;
      if 0 <= noteNum < |l| {
        var deleted := l[noteNum];
        books := Remove(books, t, noteNum);
        outcome := Deleted(noteNum + 1, deleted);
      } else {
        outcome := OutOfRange(|l|);
      }
    }
    /** `get_notes_for_reference`: fill the four lists level by level, returning as soon as
        the book, the chapter, the verse key or the chapter's verse entries are missing. */
    method NotesFor(book: Option<string>, chapter: Option<string>, verseKey: Option<string>, level: int)
      returns (notes: NoteSet)
      ensures notes == Resolve(books, book, chapter, verseKey, level)
    {
      notes := NoNotes;
      if !Truthy(book) || Get(books, book.value).None? {
        return;
      }
      var e := Get(books, book.value).value;
      if level >= 4 {
        notes := notes.(book := e.notes);
      }
      if !Truthy(chapter) || Get(e.chapters, chapter.value).None? {
        return;
      }
      var ce := Get(e.chapters, chapter.value).value;
      if level >= 3 {
        notes := notes.(chapter := ce.notes);
      }
      if !Truthy(verseKey) || ce.verses == [] {
        return;
      }
      if level >= 1 {
        notes := notes.(individual := Get(ce.verses, verseKey.value).GetOr([]));
      }
      if level >= 2 {
        match ParseInt(Split(verseKey.value, '-')[0])
        case None =>
        case Some(n) =>
          var group := GroupScanLoop(ce.verses, verseKey.value, n);
          notes := notes.(group := group);
      }
    }

    /** `fetch_and_display_verses` after the request: each verse of the answer with its notes
        at the given level, the count, and, when copying, the entries joined by the copy joiner. */
    method ShowVerses(answer: Option<seq<ApiVerse>>, copy: bool, level: int, spacious: bool, joiner: Option<string>)
      returns (d: Display)
      ensures answer.None? || answer.value == [] <==> d == VerseNotFound
      ensures answer.Some? && answer.value != [] ==>
        var vs := answer.value;
        d.Verses? && d.count == |vs| && d.shown == ShownAll(books, vs, level)
        && d.clipboard == (if copy then Some(CopyText(Entries(vs), joiner, spacious)) else None)
    {
      if answer.None? || answer.value == [] {
        return VerseNotFound;
      }
      var vs := answer.value;
      var shown, toCopy := ShowEach(vs, level);
      var clipboard := None;
      if copy {
        var finalJoiner := "\n";
        if joiner.Some? {
          finalJoiner := joiner.value;
        } else if spacious {
          finalJoiner := "\n\n";
        }
        clipboard := Some(Join(finalJoiner, toCopy));
      }
      d := Verses(shown, |vs|, clipboard);
    }

    /** The loop over the answer's verses: what each shows, and its clipboard entry. */
    method ShowEach(vs: seq<ApiVerse>, level: int) returns (shown: seq<ShownVerse>, toCopy: seq<string>)
      ensures shown == ShownAll(books, vs, level)
      ensures toCopy == Entries(vs)
    {
      shown, toCopy := [], [];
      for i := 0 to |vs|
        invariant shown == ShownAll(books, vs[..i], level)
        invariant toCopy == Entries(vs[..i])
      {
        ShownAllSnoc(books, vs, level, i);
        MapSeqSnoc(EntryOf, vs, i);
        var one := ShowVerse(vs[i], level);
        shown := shown + [one];
        toCopy := toCopy + [ReferenceOf(vs[i]) + " " + TextOf(vs[i])];
      }
      assert vs[..|vs|] == vs;
    }

    /** One verse: its reference and text, and when notes are asked for and its reference
        names a book, the note block of what the store holds for it. */
    method ShowVerse(v: ApiVerse, level: int) returns (one: ShownVerse)
      ensures one == ShowOne(books, v, level)
    {
      var reference := ReferenceOf(v);
      var text := TextOf(v);
      var notes: seq<Line> := [];
      if level > 0 {
        var r := ParseReference(reference);
        if Truthy(r.book) {
          var found := NotesFor(r.book, r.chapter, r.verseKey, level);
          notes := FormatNotes(found);
        }
      }
      one := ShownVerse(reference, text, notes);
    }

    /** `/allnotes`: every book, chapter and verse key in store order, each non-empty list
        under its heading with its notes numbered from 1. */
    method ListAll() returns (lines: seq<Line>)
      ensures lines == AllNotesLines(books)
    {
      if books == [] {
        return [NoNotesFound];
      }
      var listed := ListBooks(books);
      lines := [AllNotesHeader] + listed + [AllNotesFooter];
    }
  }

  /** The four writes of a verse note, composed: they amount to `Insert`. */
  lemma VerseAdded(before: Books, book: string, chapter: string, key: string, e0: BookEntry, ce0: ChapterEntry,
                   l0: seq<string>, mid: Books, e: BookEntry, ce: ChapterEntry, l: seq<string>, noteText: string, after: Books)
    requires e0 == Get(before, book).GetOr(NewBook)
    requires ce0 == Get(e0.chapters, chapter).GetOr(NewChapter)
    requires l0 == Get(ce0.verses, key).GetOr([])
    requires mid == Put(before, book, e0.(chapters := Put(e0.chapters, chapter, ce0)))
    requires Get(mid, book) == Some(e0.(chapters := Put(e0.chapters, chapter, ce0)))
    requires Get(Put(e0.chapters, chapter, ce0), chapter) == Some(ce0)
    requires var ce1 := ce0.(verses := Put(ce0.verses, key, l0));
      var e1 := e0.(chapters := Put(Put(e0.chapters, chapter, ce0), chapter, ce1));
      e == e1 && ce == ce1 && l == l0
    requires after == Put(Put(mid, book, e), book, e.(chapters := Put(e.chapters, chapter, ce.(verses := Put(ce.verses, key, l + [noteText])))))
    ensures after == Insert(before, VerseScope(book, chapter, key), noteText)
  {
    var ce' := ce.(verses := Put(ce.verses, key, l + [noteText]));
    PutPut(ce0.verses, key, l0, l + [noteText]);
    PutPut(e0.chapters, chapter, ce0, ce);
    PutPut(Put(e0.chapters, chapter, ce0), chapter, ce, ce');
    PutPut(e0.chapters, chapter, ce, ce');
    PutPut(mid, book, e, e.(chapters := Put(e.chapters, chapter, ce')));
    PutPut(before, book, e0.(chapters := Put(e0.chapters, chapter, ce0)), e.(chapters := Put(e.chapters, chapter, ce')));
  }

  /** A shown verse carries notes only when they were asked for and its reference names a
      book; then they are every note of the four resolved lists, in order, under one header
      that appears exactly when one of the lists is non-empty. */
  lemma ShownNotes(books: Books, v: ApiVerse, level: int)
    ensures var r := ParseReference(ReferenceOf(v));
      var ns := Resolve(books, r.book, r.chapter, r.verseKey, level);
      var asked := level > 0 && Truthy(r.book);
      var some := ns.book != [] || ns.chapter != [] || ns.group != [] || ns.individual != [];
      var notes := ShowOne(books, v, level).notes;
      Texts(notes) == (if asked then ns.book + ns.chapter + ns.group + ns.individual else [])
      && multiset(notes)[NotesHeader] == (if asked && some then 1 else 0)
  {
    var r := ParseReference(ReferenceOf(v));
    var ns := Resolve(books, r.book, r.chapter, r.verseKey, level);
    if level > 0 && Truthy(r.book) {
      NoteBlockSections(ns);
      NoteBlockHeader(ns);
    }
  }

  /** The verse service answers with the reference of each verse it returns, so a verse of a
      book the store does not hold is shown without notes. */
  lemma UnknownBookNoNotes(books: Books, v: ApiVerse, level: int)
    requires var r := ParseReference(ReferenceOf(v)); r.book.Some? ==> Get(books, r.book.value).None?
    ensures ShowOne(books, v, level).notes == []
  {
    var r := ParseReference(ReferenceOf(v));
    if level > 0 && Truthy(r.book) {
      NoteBlockHeader(NoNotes);
    }
  }

  /** Copying with the default joiner and entries without line breaks: the clipboard's lines
      are the verse entries, in order. */
  lemma ClipboardLines(vs: seq<ApiVerse>)
    requires vs != []
    requires forall k :: 0 <= k < |vs| ==> '\n' !in EntryOf(vs[k])
    ensures Split(CopyText(Entries(vs), None, false), '\n') == Entries(vs)
  {
    EntriesAt(vs);
    CopyTextLines(Entries(vs));
  }
}
