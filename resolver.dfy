/**
 * `get_notes_for_reference`: the notes a parsed reference shows at a note level, as four
 * lists (book, chapter, group, individual). The group list collects the notes of range keys
 * such as "16-18" that contain the verse.
 */
module Resolver {
  import opened Wrappers
  import opened Text
  import opened Dicts
  import opened References
  import opened Store

  datatype NoteSet = NoteSet(book: seq<string>, chapter: seq<string>, group: seq<string>, individual: seq<string>)

  const NoNotes := NoteSet([], [], [], [])

  /** What one verse entry adds to the group notes of target key `target` whose number is n:
      keys without '-' and the target itself add nothing; a key that splits into two halves
      is read as `int(start)`, `int(end)` and adds its notes when they bound n; a half that
      `int()` rejects raises ValueError (None), which ends the scan. */
  function Contribution(k: string, notes: seq<string>, target: string, n: int): Option<seq<string>> {
    if '-' !in k || k == target then Some([])
    else
      var parts := Split(k, '-');
      if |parts| != 2 then Some([])
      else
        match ParseInt(parts[0])
        case None => None
        case Some(start) =>
          match ParseInt(parts[1])
          case None => None
          case Some(end) => Some(if start <= n <= end then notes else [])
  }

  /** What each verse entry adds, in key order. */
  function Contributions(verses: Dict<seq<string>>, target: string, n: int): (cs: seq<Option<seq<string>>>)
    ensures |cs| == |verses|
    ensures forall i :: 0 <= i < |verses| ==> cs[i] == Contribution(verses[i].0, verses[i].1, target, n)
  {
    seq(|verses|, i requires 0 <= i < |verses| => Contribution(verses[i].0, verses[i].1, target, n))
  }

  /** The notes the entries add, up to the first one that raises. */
  function Collect(cs: seq<Option<seq<string>>>): seq<string>
    decreases |cs|
  {
    if cs == [] then []
    else
      match cs[0]
      case None => []
      case Some(c) => c + Collect(cs[1..])
  }

  /** The group scan over a chapter's verse entries. */
  function GroupScan(verses: Dict<seq<string>>, target: string, n: int): seq<string> {
    Collect(Contributions(verses, target, n))
  }

  /** The group notes: the number before the first '-' of the target key, or nothing when
      `int()` rejects it. */
  function GroupNotes(verses: Dict<seq<string>>, target: string): seq<string> {
    match ParseInt(Split(target, '-')[0])
    case None => []
    case Some(n) => GroupScan(verses, target, n)
  }

  /** The notes shown for (book, chapter, verse key) at a level: book notes from 4, chapter
      notes from 3, group notes from 2, individual notes from 1, stopping as soon as the book,
      the chapter, the verse key or the chapter's verse entries are missing. */
  function Resolve(books: Books, book: Option<string>, chapter: Option<string>, key: Option<string>, level: int): NoteSet {
    if !Truthy(book) then NoNotes
    else
      match Get(books, book.value)
      case None => NoNotes
      case Some(e) =>
        var bn := if level >= 4 then e.notes else [];
        if !Truthy(chapter) then NoteSet(bn, [], [], [])
        else
          match Get(e.chapters, chapter.value)
          case None => NoteSet(bn, [], [], [])
          case Some(ce) =>
            var cn := if level >= 3 then ce.notes else [];
            if !Truthy(key) || ce.verses == [] then NoteSet(bn, cn, [], [])
            else
              var ind := if level >= 1 then Get(ce.verses, key.value).GetOr([]) else [];
              var grp := if level >= 2 then GroupNotes(ce.verses, key.value) else [];
              NoteSet(bn, cn, grp, ind)
  }

  /** The body of the group loop for one entry: nothing for a key without '-' or for the
      target itself, nothing for a key that does not split in two, the entry's notes when its
      range holds n, and None where `int()` raises on a half. */
  method EntryNotes(key: string, groupNotes: seq<string>, target: string, n: int) returns (c: Option<seq<string>>)
    ensures c == Contribution(key, groupNotes, target, n)
  {
    c := Some([]);
    if '-' in key && key != target {
      var parts := Split(key, '-');
      if |parts| == 2 {
        var start := ParseInt(parts[0]);
        if start.None? {
          return None;
        }
        var end := ParseInt(parts[1]);
        if end.None? {
          return None;
        }
        if start.value <= n <= end.value {
          c := Some(groupNotes);
        }
      }
    }
  }

  /** The group loop `for key, group_notes in chapter_verses.items()`: extend the group list
      entry by entry, and leave the loop at the first range half `int()` rejects, keeping what
      was collected. */
  method GroupScanLoop(verses: Dict<seq<string>>, target: string, n: int) returns (group: seq<string>)
    ensures group == GroupScan(verses, target, n)
  {
    group := [];
    ghost var cs := Contributions(verses, target, n);
    assert cs[0..] == cs;
    var i := 0;
    while i < |verses|
      invariant i <= |verses|
      invariant group + Collect(cs[i..]) == Collect(cs)
    {
      var (key, groupNotes) := verses[i];
      var c := EntryNotes(key, groupNotes, target, n);
      assert cs[i] == c;
      CollectAt(cs, i);
      match c
      case None =>
        assert group + [] == group;
        return;
      case Some(more) =>
        assert group + (more + Collect(cs[i + 1..])) == (group + more) + Collect(cs[i + 1..]);
        group := group + more;
      i := i + 1;
    }
    assert group + [] == group;
  }

  lemma CollectAt(cs: seq<Option<seq<string>>>, i: nat)
    requires i < |cs|
    ensures Collect(cs[i..]) == match cs[i] case None => [] case Some(c) => c + Collect(cs[i + 1..])
  {
    assert cs[i..][0] == cs[i];
    assert cs[i..][1..] == cs[i + 1..];
  }

  // The group scan, key by key.

  /** A key the scan reads as a range: it holds '-', is not the target and has two halves. */
  predicate IsRangeKey(k: string, target: string) {
    '-' in k && k != target && |Split(k, '-')| == 2
  }

  /** A range key with a half that is not an integer: the scan stops there. */
  predicate Breaks(k: string, target: string) {
    IsRangeKey(k, target)
    && (ParseInt(Split(k, '-')[0]).None? || ParseInt(Split(k, '-')[1]).None?)
  }

  /** A range key whose bounds hold n. */
  predicate Covers(k: string, target: string, n: int) {
    IsRangeKey(k, target) && !Breaks(k, target)
    && ParseInt(Split(k, '-')[0]).value <= n <= ParseInt(Split(k, '-')[1]).value
  }

  /** The entry-by-entry rule in terms of the key alone: a breaking key stops the scan, a covering
      key adds its notes, any other key adds nothing. */
  lemma ContributionRule(k: string, notes: seq<string>, target: string, n: int)
    ensures Contribution(k, notes, target, n) ==
      if Breaks(k, target) then None else Some(if Covers(k, target, n) then notes else [])
  {
  }

  /** Before an entry that raises, the contributions are concatenated in order. */
  lemma {:induction false} CollectAppend(a: seq<Option<seq<string>>>, b: seq<Option<seq<string>>>)
    requires forall i :: 0 <= i < |a| ==> a[i].Some?
    ensures Collect(a + b) == Collect(a) + Collect(b)
    decreases |a|
  {
    if a == [] {
      assert a + b == b;
    } else {
      assert (a + b)[0] == a[0];
      assert (a + b)[1..] == a[1..] + b;
      CollectAppend(a[1..], b);
      var c := a[0].value;
      assert c + (Collect(a[1..]) + Collect(b)) == (c + Collect(a[1..])) + Collect(b);
    }
  }

  /** An entry that raises hides every entry after it. */
  lemma {:induction false} CollectStops(a: seq<Option<seq<string>>>, b: seq<Option<seq<string>>>)
    ensures Collect(a + [None] + b) == Collect(a)
    decreases |a|
  {
    if a == [] {
      assert (a + [None] + b)[0] == None;
    } else {
      assert (a + [None] + b)[0] == a[0];
      assert (a + [None] + b)[1..] == a[1..] + [None] + b;
      CollectStops(a[1..], b);
    }
  }

  lemma ContributionsAppend(a: Dict<seq<string>>, b: Dict<seq<string>>, target: string, n: int)
    ensures Contributions(a + b, target, n) == Contributions(a, target, n) + Contributions(b, target, n)
  {
    var f := (e: (string, seq<string>)) => Contribution(e.0, e.1, target, n);
    MapAppend(f, a, b, Contributions(a + b, target, n), Contributions(a, target, n), Contributions(b, target, n));
  }

  /** Applying f entry by entry to a + b gives the results for a followed by those for b. */
  lemma MapAppend<A, B>(f: A -> B, a: seq<A>, b: seq<A>, x: seq<B>, y: seq<B>, z: seq<B>)
    requires |x| == |a + b| && |y| == |a| && |z| == |b|
    requires forall i :: 0 <= i < |a + b| ==> x[i] == f((a + b)[i])
    requires forall i :: 0 <= i < |a| ==> y[i] == f(a[i])
    requires forall i :: 0 <= i < |b| ==> z[i] == f(b[i])
    ensures x == y + z
  {
    forall i | 0 <= i < |a| ensures x[i] == y[i] {
      assert (a + b)[i] == a[i];
    }
    forall i | 0 <= i < |b| ensures x[|a| + i] == z[i] {
      assert (a + b)[|a| + i] == b[i];
    }
  }

  /** Before a breaking key, the scan works entry by entry, in the order of the keys. */
  lemma GroupScanAppend(a: Dict<seq<string>>, b: Dict<seq<string>>, target: string, n: int)
    requires forall i :: 0 <= i < |a| ==> !Breaks(a[i].0, target)
    ensures GroupScan(a + b, target, n) == GroupScan(a, target, n) + GroupScan(b, target, n)
  {
    ContributionsAppend(a, b, target, n);
    var cs := Contributions(a, target, n);
    forall i | 0 <= i < |a| ensures cs[i].Some? {
      ContributionRule(a[i].0, a[i].1, target, n);
    }
    CollectAppend(cs, Contributions(b, target, n));
  }

  /** A key that breaks the scan hides every entry from it on. */
  lemma GroupScanBreaks(a: Dict<seq<string>>, k: string, notes: seq<string>, b: Dict<seq<string>>, target: string, n: int)
    requires Breaks(k, target)
    ensures GroupScan(a + [(k, notes)] + b, target, n) == GroupScan(a, target, n)
  {
    ContributionsAppend(a + [(k, notes)], b, target, n);
    ContributionsAppend(a, [(k, notes)], target, n);
    ContributionRule(k, notes, target, n);
    assert Contributions([(k, notes)], target, n) == [None];
    CollectStops(Contributions(a, target, n), Contributions(b, target, n));
  }

  /** A single entry adds its notes exactly when its key covers n. */
  lemma GroupScanSingle(k: string, notes: seq<string>, target: string, n: int)
    requires !Breaks(k, target)
    ensures GroupScan([(k, notes)], target, n) == if Covers(k, target, n) then notes else []
  {
    ContributionRule(k, notes, target, n);
    var v := [(k, notes)];
    var cs := Contributions(v, target, n);
    assert v[0] == (k, notes);
    assert cs[0] == Contribution(k, notes, target, n);
    assert cs[1..] == [];
    var c := if Covers(k, target, n) then notes else [];
    assert Collect(cs) == c + Collect([]);
    assert c + [] == c;
  }

  /** A target key whose number `int()` rejects has no group notes. */
  lemma GroupNotesBadTarget(verses: Dict<seq<string>>, target: string)
    requires ParseInt(Split(target, '-')[0]).None?
    ensures GroupNotes(verses, target) == []
  {
  }

  // Resolve, list by list.

  /** An empty or unknown book shows nothing. */
  lemma ResolveUnknownBook(books: Books, book: Option<string>, chapter: Option<string>, key: Option<string>, level: int)
    requires !Truthy(book) || book.value !in Keys(books)
    ensures Resolve(books, book, chapter, key, level) == NoNotes
  {
  }

  /** Each list is filled only from its level up; level 0 shows nothing. */
  lemma ResolveGates(books: Books, book: Option<string>, chapter: Option<string>, key: Option<string>, level: int)
    ensures var r := Resolve(books, book, chapter, key, level);
      (level < 4 ==> r.book == []) && (level < 3 ==> r.chapter == [])
      && (level < 2 ==> r.group == []) && (level < 1 ==> r.individual == [])
  {
  }

  /** A missing chapter leaves the chapter, group and individual lists empty; a missing verse
      key, or a chapter without verse entries, leaves the group and individual lists empty. */
  lemma ResolveEarlyStops(books: Books, book: string, chapter: Option<string>, key: Option<string>, level: int)
    ensures var r := Resolve(books, Some(book), chapter, key, level);
      (!Truthy(chapter) || NotesAt(books, ChapterScope(book, chapter.value)).None? ==>
        r.chapter == [] && r.group == [] && r.individual == [])
      && (!Truthy(key) || (Truthy(chapter) && Get(books, book).Some?
            && match Get(Get(books, book).value.chapters, chapter.value)
               case None => true
               case Some(ce) => ce.verses == []) ==>
        r.group == [] && r.individual == [])
  {
  }

  /** From its level up, each list is the store's list for that scope (empty when missing),
      and the group list is the group scan of the chapter's verse entries. */
  lemma ResolveLists(books: Books, book: string, chapter: string, key: string, level: int)
    requires book != "" && chapter != "" && key != ""
    ensures var r := Resolve(books, Some(book), Some(chapter), Some(key), level);
      (level >= 4 ==> r.book == NotesAt(books, BookScope(book)).GetOr([]))
      && (level >= 3 ==> r.chapter == NotesAt(books, ChapterScope(book, chapter)).GetOr([]))
      && (level >= 1 ==> r.individual == NotesAt(books, VerseScope(book, chapter, key)).GetOr([]))
      && (level >= 2 ==> r.group == match NotesAt(books, ChapterScope(book, chapter))
                                    case None => []
                                    case Some(_) =>
                                      GroupNotes(Get(Get(books, book).value.chapters, chapter).value.verses, key))
  {
    match Get(books, book)
    case None =>
    case Some(e) =>
      match Get(e.chapters, chapter)
      case None =>
      case Some(ce) =>
        if ce.verses == [] {
          assert Get(ce.verses, key).None?;
        }
  }

  /** Raising the level never empties or changes a list that was shown. */
  lemma ResolveMonotone(books: Books, book: Option<string>, chapter: Option<string>, key: Option<string>, level: int, level': int)
    requires level <= level'
    ensures var r, r' := Resolve(books, book, chapter, key, level), Resolve(books, book, chapter, key, level');
      (r.book == [] || r'.book == r.book) && (r.chapter == [] || r'.chapter == r.chapter)
      && (r.group == [] || r'.group == r.group) && (r.individual == [] || r'.individual == r.individual)
  {
  }
}
