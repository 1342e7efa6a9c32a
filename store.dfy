/**
 * The note store: book -> {notes, chapters}, chapter -> {notes, verses}, verse key -> notes,
 * every level an insertion-ordered dictionary. `Insert` is what `/addnote` does to it and
 * `Remove` what `/delnote` does; the lemmas say which list changes and that nothing else does.
 */
module Store {
  import opened Wrappers
  import opened Dicts
  import opened References

  /** `{"notes": [...], "verses": {verse_key: [...]}}` */
  datatype ChapterEntry = ChapterEntry(notes: seq<string>, verses: Dict<seq<string>>)

  /** `{"notes": [...], "chapters": {chapter: ...}}` */
  datatype BookEntry = BookEntry(notes: seq<string>, chapters: Dict<ChapterEntry>)

  type Books = Dict<BookEntry>

  /** The containers `/addnote` creates on the way to a list. */
  const NewBook := BookEntry([], [])
  const NewChapter := ChapterEntry([], [])

  predicate ValidChapter(ce: ChapterEntry) {
    Unique(ce.verses)
  }

  predicate ValidBook(e: BookEntry) {
    Unique(e.chapters) && forall i :: 0 <= i < |e.chapters| ==> ValidChapter(e.chapters[i].1)
  }

  /** Every dictionary of the store has unique keys. */
  predicate Valid(books: Books) {
    Unique(books) && forall i :: 0 <= i < |books| ==> ValidBook(books[i].1)
  }

  /** One note list of the store: a book's, a chapter's or a verse key's. */
  datatype Scope =
    | BookScope(book: string)
    | ChapterScope(book: string, chapter: string)
    | VerseScope(book: string, chapter: string, key: string)

  /** The list a parsed reference names, as `/addnote` and `/delnote` choose it: the book's
      when the chapter is missing or empty, the chapter's when the verse key is, else the
      verse key's. None when there is no book. */
  function TargetOf(r: Reference): Option<Scope> {
    if !Truthy(r.book) then None
    else if !Truthy(r.chapter) then Some(BookScope(r.book.value))
    else if !Truthy(r.verseKey) then Some(ChapterScope(r.book.value, r.chapter.value))
    else Some(VerseScope(r.book.value, r.chapter.value, r.verseKey.value))
  }

  /** u is a container on the way to t: t's book, or t's chapter when t is a verse key. */
  predicate Encloses(u: Scope, t: Scope) {
    match t
    case BookScope(_) => false
    case ChapterScope(b, _) => u == BookScope(b)
    case VerseScope(b, c, _) => u == BookScope(b) || u == ChapterScope(b, c)
  }

  function NotesInChapter(ce: ChapterEntry, t: Scope): Option<seq<string>>
    requires !t.BookScope?
  {
    match t
    case ChapterScope(_, _) => Some(ce.notes)
    case VerseScope(_, _, k) => Get(ce.verses, k)
  }

  function NotesInBook(e: BookEntry, t: Scope): Option<seq<string>> {
    match t
    case BookScope(_) => Some(e.notes)
    case _ =>
      match Get(e.chapters, t.chapter)
      case None => None
      case Some(ce) => NotesInChapter(ce, t)
  }

  /** The list at t, None when a container on the way is missing. */
  function NotesAt(books: Books, t: Scope): Option<seq<string>> {
    match Get(books, t.book)
    case None => None
    case Some(e) => NotesInBook(e, t)
  }

  /** The chapter keys of book b, in store order; none when the book is missing. */
  function ChapterKeys(books: Books, b: string): seq<string> {
    match Get(books, b)
    case None => []
    case Some(e) => Keys(e.chapters)
  }

  /** The verse keys of chapter c of book b, in store order; none when either is missing. */
  function VerseKeys(books: Books, b: string, c: string): seq<string> {
    match Get(books, b)
    case None => []
    case Some(e) => VerseKeysIn(e, c)
  }

  function VerseKeysIn(e: BookEntry, c: string): seq<string> {
    match Get(e.chapters, c)
    case None => []
    case Some(ce) => Keys(ce.verses)
  }

  function InsertInChapter(ce: ChapterEntry, t: Scope, text: string): ChapterEntry
    requires !t.BookScope?
  {
    match t
    case ChapterScope(_, _) => ce.(notes := ce.notes + [text])
    case VerseScope(_, _, k) => ce.(verses := Put(ce.verses, k, Get(ce.verses, k).GetOr([]) + [text]))
  }

  function InsertInBook(e: BookEntry, t: Scope, text: string): BookEntry {
    match t
    case BookScope(_) => e.(notes := e.notes + [text])
    case _ =>
      var ce := Get(e.chapters, t.chapter).GetOr(NewChapter);
      e.(chapters := Put(e.chapters, t.chapter, InsertInChapter(ce, t, text)))
  }

  /** `/addnote`: append text to the list at t, creating the missing containers. */
  function Insert(books: Books, t: Scope, text: string): Books {
    var e := Get(books, t.book).GetOr(NewBook);
    Put(books, t.book, InsertInBook(e, t, text))
  }

  function RemoveInChapter(ce: ChapterEntry, t: Scope, i: nat): ChapterEntry
    requires !t.BookScope?
    requires i < |NotesInChapter(ce, t).GetOr([])|
  {
    match t
    case ChapterScope(_, _) => ce.(notes := ce.notes[..i] + ce.notes[i + 1..])
    case VerseScope(_, _, k) =>
      var l := Get(ce.verses, k).value;
      ce.(verses := Put(ce.verses, k, l[..i] + l[i + 1..]))
  }

  function RemoveInBook(e: BookEntry, t: Scope, i: nat): BookEntry
    requires i < |NotesInBook(e, t).GetOr([])|
  {
    match t
    case BookScope(_) => e.(notes := e.notes[..i] + e.notes[i + 1..])
    case _ =>
      var ce := Get(e.chapters, t.chapter).value;
      e.(chapters := Put(e.chapters, t.chapter, RemoveInChapter(ce, t, i)))
  }

  /** `/delnote`: `pop(i)` on the list at t, which exists and has an element i. */
  function Remove(books: Books, t: Scope, i: nat): Books
    requires i < |NotesAt(books, t).GetOr([])|
  {
    Put(books, t.book, RemoveInBook(Get(books, t.book).value, t, i))
  }

  // Insert

  /** The list at t gains text at its end; a missing list starts out empty. */
  lemma InsertAppends(books: Books, t: Scope, text: string)
    ensures NotesAt(Insert(books, t, text), t) == Some(NotesAt(books, t).GetOr([]) + [text])
  {
    var e := Get(books, t.book).GetOr(NewBook);
    GetPut(books, t.book, InsertInBook(e, t, text));
    if !t.BookScope? {
      var ce := Get(e.chapters, t.chapter).GetOr(NewChapter);
      GetPut(e.chapters, t.chapter, InsertInChapter(ce, t, text));
      if t.VerseScope? {
        GetPut(ce.verses, t.key, Get(ce.verses, t.key).GetOr([]) + [text]);
      }
    }
  }

  lemma InsertInChapterOther(ce: ChapterEntry, t: Scope, text: string, u: Scope)
    requires !t.BookScope? && !u.BookScope? && u != t
    requires u.book == t.book && u.chapter == t.chapter
    ensures NotesInChapter(InsertInChapter(ce, t, text), u) == NotesInChapter(ce, u)
  {
    if t.VerseScope? && u.VerseScope? {
      GetPutOther(ce.verses, t.key, Get(ce.verses, t.key).GetOr([]) + [text], u.key);
    }
  }

  lemma InsertInBookOther(e: BookEntry, t: Scope, text: string, u: Scope)
    requires u != t && u.book == t.book
    ensures NotesInBook(InsertInBook(e, t, text), u) ==
      if NotesInBook(e, u).None? && Encloses(u, t) then Some([]) else NotesInBook(e, u)
  {
    if !t.BookScope? && !u.BookScope? {
      var ce := Get(e.chapters, t.chapter).GetOr(NewChapter);
      var ce' := InsertInChapter(ce, t, text);
      if u.chapter == t.chapter {
        GetPut(e.chapters, t.chapter, ce');
        InsertInChapterOther(ce, t, text, u);
      } else {
        GetPutOther(e.chapters, t.chapter, ce', u.chapter);
      }
    }
  }

  /** Every other list keeps its notes; of the lists that did not exist, only the containers
      on the way to t come into being, empty. */
  lemma InsertOthers(books: Books, t: Scope, text: string, u: Scope)
    requires u != t
    ensures NotesAt(Insert(books, t, text), u) ==
      if NotesAt(books, u).None? && Encloses(u, t) then Some([]) else NotesAt(books, u)
  {
    var e := Get(books, t.book).GetOr(NewBook);
    var e' := InsertInBook(e, t, text);
    if u.book == t.book {
      GetPut(books, t.book, e');
      InsertInBookOther(e, t, text, u);
      if Get(books, t.book).None? && !u.BookScope? {
        assert Get(NewBook.chapters, u.chapter).None?;
      }
    } else {
      GetPutOther(books, t.book, e', u.book);
    }
  }

  /** The books keep their order; a new book is added last. */
  lemma InsertKeys(books: Books, t: Scope, text: string)
    ensures Keys(Insert(books, t, text)) ==
      if t.book in Keys(books) then Keys(books) else Keys(books) + [t.book]
  {
    KeysPut(books, t.book, InsertInBook(Get(books, t.book).GetOr(NewBook), t, text));
  }

  /** Every book keeps the order of its chapters; a new chapter is added last in its book. */
  lemma InsertChapterKeys(books: Books, t: Scope, text: string, b: string)
    ensures ChapterKeys(Insert(books, t, text), b) ==
      if b == t.book && !t.BookScope? && t.chapter !in ChapterKeys(books, b)
      then ChapterKeys(books, b) + [t.chapter] else ChapterKeys(books, b)
  {
    var e := Get(books, t.book).GetOr(NewBook);
    var e' := InsertInBook(e, t, text);
    if b == t.book {
      GetPut(books, t.book, e');
      if !t.BookScope? {
        var ce := Get(e.chapters, t.chapter).GetOr(NewChapter);
        KeysPut(e.chapters, t.chapter, InsertInChapter(ce, t, text));
      }
    } else {
      GetPutOther(books, t.book, e', b);
    }
  }

  /** Every chapter keeps the order of its verse keys; a new verse key is added last in its
      chapter. */
  lemma InsertVerseKeys(books: Books, t: Scope, text: string, b: string, c: string)
    ensures VerseKeys(Insert(books, t, text), b, c) ==
      if t.VerseScope? && b == t.book && c == t.chapter && t.key !in VerseKeys(books, b, c)
      then VerseKeys(books, b, c) + [t.key] else VerseKeys(books, b, c)
  {
    var e := Get(books, t.book).GetOr(NewBook);
    var e' := InsertInBook(e, t, text);
    if b == t.book {
      GetPut(books, t.book, e');
      if !t.BookScope? {
        InsertChapterVerseKeys(e, t, text, c);
      }
    } else {
      GetPutOther(books, t.book, e', b);
    }
  }

  lemma InsertChapterVerseKeys(e: BookEntry, t: Scope, text: string, c: string)
    requires !t.BookScope?
    ensures VerseKeysIn(InsertInBook(e, t, text), c) ==
      if t.VerseScope? && c == t.chapter && t.key !in VerseKeysIn(e, c)
      then VerseKeysIn(e, c) + [t.key] else VerseKeysIn(e, c)
  {
    var ce := Get(e.chapters, t.chapter).GetOr(NewChapter);
    var ce' := InsertInChapter(ce, t, text);
    if c == t.chapter {
      GetPut(e.chapters, t.chapter, ce');
      if t.VerseScope? {
        KeysPut(ce.verses, t.key, Get(ce.verses, t.key).GetOr([]) + [text]);
      }
    } else {
      GetPutOther(e.chapters, t.chapter, ce', c);
    }
  }

  lemma InsertValid(books: Books, t: Scope, text: string)
    requires Valid(books)
    ensures Valid(Insert(books, t, text))
  {
    var e := Get(books, t.book).GetOr(NewBook);
    var e' := InsertInBook(e, t, text);
    assert ValidBook(e);
    assert ValidBook(e') by {
      if !t.BookScope? {
        var ce := Get(e.chapters, t.chapter).GetOr(NewChapter);
        assert ValidChapter(ce);
        if t.VerseScope? {
          UniquePut(ce.verses, t.key, Get(ce.verses, t.key).GetOr([]) + [text]);
        }
        var ce' := InsertInChapter(ce, t, text);
        assert ValidChapter(ce');
        ValidPut(e.chapters, t.chapter, ce');
      }
    }
    ValidBooksPut(books, t.book, e');
  }

  lemma ValidPut(d: Dict<ChapterEntry>, k: string, ce: ChapterEntry)
    requires Unique(d) && forall i :: 0 <= i < |d| ==> ValidChapter(d[i].1)
    requires ValidChapter(ce)
    ensures Unique(Put(d, k, ce)) && forall i :: 0 <= i < |Put(d, k, ce)| ==> ValidChapter(Put(d, k, ce)[i].1)
  {
    UniquePut(d, k, ce);
  }

  lemma ValidBooksPut(d: Books, k: string, e: BookEntry)
    requires Valid(d) && ValidBook(e)
    ensures Valid(Put(d, k, e))
  {
    UniquePut(d, k, e);
  }

  // Remove

  /** The list at t loses its element i; the later notes move down by one. */
  lemma RemoveTakesOut(books: Books, t: Scope, i: nat)
    requires i < |NotesAt(books, t).GetOr([])|
    ensures var l := NotesAt(books, t).value;
      NotesAt(Remove(books, t, i), t) == Some(l[..i] + l[i + 1..])
  {
    var e := Get(books, t.book).value;
    GetPut(books, t.book, RemoveInBook(e, t, i));
    if !t.BookScope? {
      var ce := Get(e.chapters, t.chapter).value;
      GetPut(e.chapters, t.chapter, RemoveInChapter(ce, t, i));
      if t.VerseScope? {
        var l := Get(ce.verses, t.key).value;
        GetPut(ce.verses, t.key, l[..i] + l[i + 1..]);
      }
    }
  }

  lemma RemoveInChapterOther(ce: ChapterEntry, t: Scope, i: nat, u: Scope)
    requires !t.BookScope? && !u.BookScope? && u != t
    requires u.book == t.book && u.chapter == t.chapter
    requires i < |NotesInChapter(ce, t).GetOr([])|
    ensures NotesInChapter(RemoveInChapter(ce, t, i), u) == NotesInChapter(ce, u)
  {
    if t.VerseScope? && u.VerseScope? {
      var l := Get(ce.verses, t.key).value;
      GetPutOther(ce.verses, t.key, l[..i] + l[i + 1..], u.key);
    }
  }

  lemma RemoveInBookOther(e: BookEntry, t: Scope, i: nat, u: Scope)
    requires u != t && u.book == t.book
    requires i < |NotesInBook(e, t).GetOr([])|
    ensures NotesInBook(RemoveInBook(e, t, i), u) == NotesInBook(e, u)
  {
    if !t.BookScope? && !u.BookScope? {
      var ce := Get(e.chapters, t.chapter).value;
      var ce' := RemoveInChapter(ce, t, i);
      if u.chapter == t.chapter {
        GetPut(e.chapters, t.chapter, ce');
        RemoveInChapterOther(ce, t, i, u);
      } else {
        GetPutOther(e.chapters, t.chapter, ce', u.chapter);
      }
    }
  }

  /** Every other list is left as it was, and no container disappears. */
  lemma RemoveOthers(books: Books, t: Scope, i: nat, u: Scope)
    requires i < |NotesAt(books, t).GetOr([])|
    requires u != t
    ensures NotesAt(Remove(books, t, i), u) == NotesAt(books, u)
  {
    var e := Get(books, t.book).value;
    var e' := RemoveInBook(e, t, i);
    if u.book == t.book {
      GetPut(books, t.book, e');
      RemoveInBookOther(e, t, i, u);
    } else {
      GetPutOther(books, t.book, e', u.book);
    }
  }

  /** The books keep their order and none is added. */
  lemma RemoveKeys(books: Books, t: Scope, i: nat)
    requires i < |NotesAt(books, t).GetOr([])|
    ensures Keys(Remove(books, t, i)) == Keys(books)
  {
    KeysPut(books, t.book, RemoveInBook(Get(books, t.book).value, t, i));
  }

  /** Every book keeps its chapters in their order, and none is added. */
  lemma RemoveChapterKeys(books: Books, t: Scope, i: nat, b: string)
    requires i < |NotesAt(books, t).GetOr([])|
    ensures ChapterKeys(Remove(books, t, i), b) == ChapterKeys(books, b)
  {
    var e := Get(books, t.book).value;
    var e' := RemoveInBook(e, t, i);
    if b == t.book {
      GetPut(books, t.book, e');
      if !t.BookScope? {
        KeysPut(e.chapters, t.chapter, RemoveInChapter(Get(e.chapters, t.chapter).value, t, i));
      }
    } else {
      GetPutOther(books, t.book, e', b);
    }
  }

  /** Every chapter keeps its verse keys in their order, and none is added. */
  lemma RemoveVerseKeys(books: Books, t: Scope, i: nat, b: string, c: string)
    requires i < |NotesAt(books, t).GetOr([])|
    ensures VerseKeys(Remove(books, t, i), b, c) == VerseKeys(books, b, c)
  {
    var e := Get(books, t.book).value;
    var e' := RemoveInBook(e, t, i);
    if b == t.book {
      GetPut(books, t.book, e');
      if !t.BookScope? {
        RemoveChapterVerseKeys(e, t, i, c);
      }
    } else {
      GetPutOther(books, t.book, e', b);
    }
  }

  lemma RemoveChapterVerseKeys(e: BookEntry, t: Scope, i: nat, c: string)
    requires !t.BookScope?
    requires i < |NotesInBook(e, t).GetOr([])|
    ensures VerseKeysIn(RemoveInBook(e, t, i), c) == VerseKeysIn(e, c)
  {
    var ce := Get(e.chapters, t.chapter).value;
    var ce' := RemoveInChapter(ce, t, i);
    if c == t.chapter {
      GetPut(e.chapters, t.chapter, ce');
      if t.VerseScope? {
        var l := Get(ce.verses, t.key).value;
        KeysPut(ce.verses, t.key, l[..i] + l[i + 1..]);
      }
    } else {
      GetPutOther(e.chapters, t.chapter, ce', c);
    }
  }

  lemma RemoveValid(books: Books, t: Scope, i: nat)
    requires Valid(books)
    requires i < |NotesAt(books, t).GetOr([])|
    ensures Valid(Remove(books, t, i))
  {
    var e := Get(books, t.book).value;
    var e' := RemoveInBook(e, t, i);
    assert ValidBook(e);
    assert ValidBook(e') by {
      if !t.BookScope? {
        var ce := Get(e.chapters, t.chapter).value;
        assert ValidChapter(ce);
        if t.VerseScope? {
          var l := Get(ce.verses, t.key).value;
          UniquePut(ce.verses, t.key, l[..i] + l[i + 1..]);
        }
        var ce' := RemoveInChapter(ce, t, i);
        assert ValidChapter(ce');
        ValidPut(e.chapters, t.chapter, ce');
      }
    }
    ValidBooksPut(books, t.book, e');
  }
}
