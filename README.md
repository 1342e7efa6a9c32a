# verse_notes in Dafny

A model of the core of `verse_notes.py`, a command-line Bible verse fetcher that keeps
personal notes. Each note is attached to a book, a chapter, or a verse key (`"16"`, or a
range such as `"16-18"`).

The model covers five pieces of logic:

- **Reference parsing** (`References`). `parse_reference` strips its input and matches it
  against a regular expression. The primary pattern is modelled twice:
  - `Reads` is a declarative grammar: the ways a string can be cut into the pattern's parts
    (optional `\d\s` prefix, name, gap, chapter, `:` and verse key).
  - `Scan` / `Primary` is a deterministic left-to-right scan.

  The lemmas show that every reading gives the groups the scan computes. They also show
  that the book-only fallback pattern never accepts a string the primary pattern rejects, so
  that branch is dead code. The book is stripped and title-cased with an ASCII model of
  Python's `str.strip` and `str.title` (`Text`).
- **The note store** (`Dicts`, `Store`). The global `bible_notes` dictionary is modelled as
  book → `{notes, chapters}`, then chapter → `{notes, verses}`, then verse key → notes.
  - Every level is an insertion-ordered dictionary, written as a sequence of (key, value)
    pairs.
  - `Insert` is what `/addnote` does to the store and `Remove` is what `/delnote` does.
  - The lemmas state which single list changes, that every other list keeps its notes, which
    containers come into being, and that keys keep their order and stay unique.
- **Note resolution** (`Resolver`). `get_notes_for_reference` is the function `Resolve`,
  with its level gating and early returns. The group scan over range keys is proved entry by
  entry: a covering range adds its notes, in key order, and a range half that `int()` rejects
  ends the scan but keeps what was collected. The loop itself is the method `GroupScanLoop`.
- **Output** (`Listing`). The note block under a verse and the `/allnotes` listing are
  sequences of `Line` values rather than printed text.
  - The loop of `format_and_print_notes` is `FormatNotes`.
  - The nested loops of `/allnotes` are `ListBooks` down to `ListVerse`.
  - The lemmas state the order of the sections, the numbering, that the header appears
    exactly once, and that `/allnotes` prints every note of the store in order.
- **The prompt** (`Query`, `Repl`).
  - The flag loop over the tokens of a query is `ScanFlags`. It is proved against `Scan`,
    which tokenises the parts and summarises the tokens (for example, the last `-n` wins over
    any `-v`).
  - `Decide` says whether the query is fetched.
  - `CopyJoiner` is the choice of the clipboard joiner.
  - The class `NoteStore` holds the store as a field. Its methods are `/addnote`,
    `/delnote`, `/allnotes`, the note lookup, and the verse display after the request.

Python's `int()` is modelled as `ParseInt`: surrounding whitespace, an optional sign, and
digits with single underscores between them. For ASCII text, the whitespace `int()` skips is
characters 9–13 and 32 only (`IsIntSpace`). The separator controls 28–31 are not skipped, so
`int()` rejects a number that has one of them next to it.

Python's `str.isspace`, `str.strip` and the regex class `\s` are modelled over ASCII only:
characters 9–13, 28–31 and 32 (`IsSpace`).

In `/delnote` the note number is read by `int()` before the list is looked up. That call
sits outside the inner `try`, so a bad number is reported even when the list does not exist.
The model keeps that order: `NotANumber` wins over `NotFound`.

An escape sequence the `-j` decoder rejects raises inside the flag loop, and nothing catches
it. The model gives this as the scan error `DecoderRaised` and the action `Abort`.

## Model

| member | source | states |
|---|---|---|
| Text.Strip | verse_notes.py:106 | the result has no leading or trailing whitespace, is empty exactly when the input is all whitespace, and is the input itself when that is already stripped |
| Text.StripBounds | verse_notes.py:106 | everything cut off by `strip()` is whitespace, and the kept slice starts and ends with non-whitespace |
| Text.StripAppendSpaces | verse_notes.py:113-128 | trailing whitespace left in the lazy name group by the `\s*` gap does not change the stripped name |
| Text.StripBoundsAppend | verse_notes.py:113-128 | a text followed by whitespace is stripped at the bounds of the text alone, or to nothing when that text is all whitespace |
| Text.StripCaseEq | verse_notes.py:116-128 | texts that differ only in letter case are stripped at the same positions |
| Text.Title | verse_notes.py:124-128 | each character of `title()` is upper case when it follows a non-letter and lower case when it follows a letter; the length is kept |
| Text.TitleNormalises | verse_notes.py:128 | `title()` keeps the letters (up to case) and the whitespace, and its result is in title case |
| Text.TitleCaseEq | verse_notes.py:116-128 | letter case in the input does not change what `title()` returns |
| Text.TitleOfTitled | verse_notes.py:128 | text already in title case is returned unchanged by `title()` |
| Text.TitleIdempotent | verse_notes.py:128 | applying `title()` twice gives what applying it once gives |
| Text.JoinAppend | verse_notes.py:266 | joining two non-empty runs of parts puts exactly one separator between their joins |
| Text.Split | verse_notes.py:176-181 | `split` always gives at least one piece |
| Text.SplitNoSeparator | verse_notes.py:181 | no piece of `split(c)` contains c |
| Text.SplitJoinBack | verse_notes.py:176-181 | joining the pieces of `split(c)` with c gives the text back |
| Text.SplitJoin | verse_notes.py:266 | splitting a join at its separator gives the parts back when no part holds the separator |
| Text.IntStrip | verse_notes.py:374 | the whitespace `int()` skips (characters 9–13 and 32) is removed from both ends: the result neither starts nor ends with it, and is empty exactly when the text is all such whitespace |
| Text.ParseIntShow | verse_notes.py:473 | `int(str(n)) == n` for every natural number n |
| Text.ParseIntPadded | verse_notes.py:374 | `int()` reads n from its decimal digits surrounded by any runs of tab through carriage return and spaces |
| Text.IntKeepsSeparator | verse_notes.py:374 | `int()` rejects text whose first character is neither its whitespace, a sign nor a digit |
| Text.ParseIntSeparatorControl | verse_notes.py:374 | a separator control 0x1C before the digits makes `int()` fail, while `strip()` removes it |
| References.ScanVerse | verse_notes.py:115 | after the chapter, either the text ends or a `:`, optional whitespace and a non-empty verse key run to the end |
| References.Scan | verse_notes.py:112-119 | a cut the scan finds is a reading of the primary pattern |
| References.ScanComplete | verse_notes.py:112-119 | the scan finds every reading of the primary pattern, up to where the name ends inside the whitespace before the chapter |
| References.BookNameGap | verse_notes.py:113-128 | whitespace between the lazy name group and the chapter does not change the stripped, title-cased book |
| References.ReadingDetermined | verse_notes.py:112-132 | every reading of the primary pattern yields the same (book, chapter, verse key) triple, so the groups do not depend on backtracking |
| References.FallbackUnreachable | verse_notes.py:121-125 | the book-only pattern accepts only texts the primary pattern also accepts, so the fallback branch is never taken |
| References.GroupsNormal | verse_notes.py:127-132 | the groups of a reading are a non-empty, stripped, title-cased book, an all-digit chapter and a key of digits, '-' and ',' |
| References.ParseNormalised | verse_notes.py:106-132 | every result of `parse_reference` is the all-None triple or has a normalised book; a chapter is all digits; a verse key is digits, '-' and ',' |
| References.ParseBlank | verse_notes.py:106-125 | an empty or all-whitespace text is the invalid triple `(None, None, None)` |
| References.PrimaryCaseInsensitive | verse_notes.py:112-132 | the primary pattern gives the same groups for texts that differ only in letter case |
| References.GroupsCaseInsensitive | verse_notes.py:116-132 | a reading cuts two texts that differ only in letter case into the same groups |
| References.ParseCaseInsensitive | verse_notes.py:106-132 | two texts that differ only in letter case parse to the same triple |
| References.ExampleVerse | verse_notes.py:100 | "John 3:16" parses to ("John", "3", "16") |
| References.ExampleVerseRange | verse_notes.py:101 | "John 3:16-17" parses to ("John", "3", "16-17") |
| References.ExampleChapter | verse_notes.py:102 | "John 3" parses to ("John", "3", None) |
| References.ExampleBook | verse_notes.py:103 | "John" parses to ("John", None, None) |
| References.ExampleNumbered | verse_notes.py:104 | "1 John 3:16" parses to ("1 John", "3", "16") |
| References.ExampleNumberedBook | verse_notes.py:112-128 | a lower-case numbered book with a range, "1 john 3:16-18", parses to ("1 John", "3", "16-18") |
| References.ExampleBookOnly | verse_notes.py:119-132 | a lower-case book alone, "ruth", parses to ("Ruth", None, None) |
| Dicts.Keys | verse_notes.py:411 | the keys of a dictionary, one per entry, in insertion order |
| Dicts.IndexOf | verse_notes.py:146 | the position of the entry for a key, or the size when the key is absent |
| Dicts.Get | verse_notes.py:169 | `d.get(k)` is None exactly when k is not a key, and otherwise a value stored under k |
| Dicts.Put | verse_notes.py:336 | `d[k] = v` adds one entry for a new key and none for an existing key |
| Dicts.GetPut | verse_notes.py:336 | after `d[k] = v`, `d.get(k)` is v |
| Dicts.GetPutOther | verse_notes.py:336 | `d[k] = v` leaves every other key's value alone |
| Dicts.KeysPut | verse_notes.py:336 | `d[k] = v` keeps the key order and adds a new key last |
| Dicts.UniquePut | verse_notes.py:336 | `d[k] = v` keeps the keys unique |
| Dicts.PutPut | verse_notes.py:336-356 | a second store under a key overwrites the first, in the first one's place |
| Dicts.PutSame | verse_notes.py:335-355 | storing the value a key already holds changes nothing |
| Store.InsertAppends | verse_notes.py:335-356 | `/addnote` appends the note to the end of the list it targets; a missing list starts out empty |
| Store.InsertOthers | verse_notes.py:335-356 | every other list keeps its notes; of the lists that did not exist, only the containers on the way to the target are created, empty |
| Store.InsertKeys | verse_notes.py:335-336 | the books keep their order and a new book is added last |
| Store.InsertChapterKeys | verse_notes.py:344-353 | every book keeps the order of its chapter keys; a new chapter is added last in the note's book, and only there |
| Store.InsertVerseKeys | verse_notes.py:351-356 | every chapter keeps the order of its verse keys; a new verse key is added last in the note's chapter, and only for a verse note |
| Store.InsertValid | verse_notes.py:335-356 | adding a note keeps every dictionary of the store free of duplicate keys |
| Store.RemoveTakesOut | verse_notes.py:392-393 | `pop(i)` removes element i of the target list, and the later notes move down by one |
| Store.RemoveOthers | verse_notes.py:393 | every other list is left as it was, and no container disappears |
| Store.RemoveKeys | verse_notes.py:393 | the books keep their order and none is added |
| Store.RemoveChapterKeys | verse_notes.py:378-393 | every book keeps its chapter keys in their order, and none is added or removed |
| Store.RemoveVerseKeys | verse_notes.py:378-393 | every chapter keeps its verse keys in their order, and none is added or removed |
| Store.RemoveValid | verse_notes.py:393 | deleting a note keeps every dictionary free of duplicate keys |
| Resolver.Contributions | verse_notes.py:177-185 | one contribution per verse entry, in key order |
| Resolver.EntryNotes | verse_notes.py:178-185 | one pass of the group loop: nothing for a key without '-' or the target key, nothing for a key that does not split in two, the notes when the range holds n, and a stop where `int()` raises |
| Resolver.GroupScanLoop | verse_notes.py:175-187 | the group loop collects what `GroupScan` says: the notes of the covering ranges before the first range half `int()` rejects |
| Resolver.ContributionRule | verse_notes.py:178-185 | an entry stops the scan exactly when it is a two-part range key with a non-integer half, and otherwise adds its notes exactly when its range covers n |
| Resolver.CollectAppend | verse_notes.py:177-185 | before an entry that raises, the entries' notes are concatenated in order |
| Resolver.CollectStops | verse_notes.py:186-187 | an entry that raises hides every entry after it and keeps what was collected before it |
| Resolver.ContributionsAppend | verse_notes.py:177 | the contributions of two runs of entries are the contributions of each, in order |
| Resolver.GroupScanAppend | verse_notes.py:177-185 | before a breaking key, the group notes of a run of entries are those of each part, in key order |
| Resolver.GroupScanBreaks | verse_notes.py:183-187 | a key with a non-integer half hides every entry from it on |
| Resolver.GroupScanSingle | verse_notes.py:178-185 | a single entry adds its notes exactly when its range covers n |
| Resolver.GroupNotesBadTarget | verse_notes.py:176 | a verse key whose leading number `int()` rejects has no group notes |
| Resolver.ResolveUnknownBook | verse_notes.py:146-147 | an empty or unknown book gives four empty lists |
| Resolver.ResolveGates | verse_notes.py:150-172 | book notes only from level 4, chapter notes from 3, group notes from 2, individual notes from 1; level 0 shows nothing |
| Resolver.ResolveEarlyStops | verse_notes.py:153-163 | a missing chapter leaves the chapter, group and individual lists empty; a missing verse key or a chapter without verse entries leaves the group and individual lists empty |
| Resolver.ResolveLists | verse_notes.py:146-189 | from its level up, each list is the store's list for its scope (empty when missing), and the group list is the group scan of the chapter's verse entries |
| Resolver.ResolveMonotone | verse_notes.py:150-172 | raising the level never empties or changes a list that was already shown |
| Listing.Numbered | verse_notes.py:210-211 | one numbered line per note |
| Listing.FormatNotes | verse_notes.py:191-211 | the loop over the four lists, with its header flag, prints the note block |
| Listing.NumberNotes | verse_notes.py:210-211 | the notes numbered from 1, in order |
| Listing.HeadedSnoc | verse_notes.py:201-207 | more printed lines go after what is already printed, bringing the header with them when they are the first |
| Listing.BodySections | verse_notes.py:194-211 | the block's body is the Book, Chapter, Group and Individual sections one after another |
| Listing.SectionFacts | verse_notes.py:204-211 | an empty list prints nothing; a non-empty list prints its heading and exactly its notes, and never the header |
| Listing.NoteBlockSections | verse_notes.py:194-211 | only non-empty lists get a section, in the order Book, Chapter, Group, Individual, and the block prints every note of the four lists in that order |
| Listing.NoteBlockHeader | verse_notes.py:201-207 | the notes header appears exactly once, first, when some list is non-empty, and never when all four are empty |
| Listing.NumberedFacts | verse_notes.py:210-211 | numbered lines carry no heading and give back exactly the notes |
| Listing.NumberedNumbers | verse_notes.py:210-211 | line i of a numbered list shows note i with the number i + 1, the number `/delnote` takes for it |
| Listing.ListBooks | verse_notes.py:411-427 | the `/allnotes` loop over the books prints the listing of each book in store order |
| Listing.ListBook | verse_notes.py:412-417 | a book prints its own notes under its heading, when it has any, then its chapters |
| Listing.ListChapters | verse_notes.py:417-427 | the loop over a book's chapters prints each chapter in store order |
| Listing.ListChapter | verse_notes.py:418-423 | a chapter prints its own notes under its heading, when it has any, then its verse keys |
| Listing.ListVerses | verse_notes.py:423-427 | the loop over a chapter's verse keys prints each in store order |
| Listing.ListVerse | verse_notes.py:424-427 | a verse key prints its notes under its heading, and nothing when its list is empty |
| Listing.BooksTexts | verse_notes.py:411-427 | the listing of the books carries every note of the store, in store order |
| Listing.AllNotesComplete | verse_notes.py:405-428 | `/allnotes` prints every note of the store exactly once, in store order |
| Listing.AllNotesEmpty | verse_notes.py:406-407 | "No notes found." is printed exactly when the store has no book |
| Query.Next | verse_notes.py:450-491 | a step reads one or two parts (two only for `-j` and `-n`), and an accepted level is in 1..4 |
| Query.ScanStep | verse_notes.py:450-491 | one pass of the loop body reads the token `Next` reads and applies it to the scan's variables, or stops with `Next`'s error |
| Query.ScanJoiner | verse_notes.py:462-469 | `-j` takes the decoded next token as the joiner; a missing token or a failing decoder is the matching error |
| Query.ScanLevelArg | verse_notes.py:470-488 | `-n` takes the next token as the level when `int()` reads it as 1..4; a missing token, a non-number and an out-of-range level are the matching errors |
| Query.ScanFlags | verse_notes.py:442-494 | the `while` loop ends with `Scan`'s outcome: the summary of all the tokens, or the first error |
| Query.NextAppend | verse_notes.py:449-491 | a token read at the front is read the same way whatever follows it |
| Query.TokenizeAppend | verse_notes.py:449-491 | a prefix the scan reads completely is read the same way in front of any further parts |
| Query.SummaryStep | verse_notes.py:451-491 | the loop body, folded over the tokens, computes their summary |
| Query.LevelStep | verse_notes.py:457-475 | `-n` sets the level; `-v` sets level 2 only while the level is still 0 |
| Query.Maintain | verse_notes.py:449-491 | the loop invariant survives a pass that reads a token, and the position advances |
| Query.Stop | verse_notes.py:466-488 | an error at the front of what is left is the error of the whole scan |
| Query.TokenizeLevels | verse_notes.py:472-479 | every level the scan accepts is in 1..4 |
| Query.ScanLevel | verse_notes.py:445-475 | the level of a scanned query is in 0..4, and it is 0 exactly when neither `-v` nor `-n` was given |
| Query.ScanRejects | verse_notes.py:462-488 | after any prefix read completely, a trailing `-j`, a trailing `-n`, or a `-n` whose argument is not an integer in 1..4 ends the scan with that error |
| Query.PlainWords | verse_notes.py:489-496 | parts that are not flags are all query words, kept in order, with no flag, joiner or level |
| Query.LevelFlagged | verse_notes.py:457-458 | a `-v` among the tokens puts `-v` in the flag set |
| Query.NotViewed | verse_notes.py:457-475 | level 0 with no flag means neither `-v` nor `-n` was read |
| Query.Decide | verse_notes.py:493-505 | a query is fetched exactly when the scan succeeded and the words joined by spaces are not empty; an empty query with flags, a joiner or a level is reported |
| Query.PlainFetch | verse_notes.py:489-505 | plain words are fetched as the words joined by spaces, without notes, copying or joiner |
| Query.FlagsOnly | verse_notes.py:500-503 | flags without a reference are never fetched and are reported as an error |
| Query.FlagsOnlyTokens | verse_notes.py:451-461 | flags alone are read one token per part, with no word and no joiner |
| Query.FlagSeen | verse_notes.py:451-458 | a `-c`, `-s` or `-v` among the tokens makes the flag set non-empty |
| Query.CopyJoiner | verse_notes.py:259-264 | the explicit joiner when one is given, else a blank line between verses when spacious, else a line break |
| Query.CopyTextLines | verse_notes.py:259-266 | with the default joiner, the copied text split at line breaks gives back the verse entries, when none holds a line break |
| Repl.NoteStore.constructor | verse_notes.py:76-84 | a missing or unreadable notes file gives an empty store |
| Repl.NoteStore.Loaded | verse_notes.py:79-81 | the store is the saved dictionary |
| Repl.NoteStore.AddNote | verse_notes.py:323-360 | fewer than three tokens or a reference without a book change nothing; otherwise the tokens after the reference, joined by spaces, are inserted into the list the reference names |
| Repl.NoteStore.AddAt | verse_notes.py:334-357 | the in-place appends, with the containers they create, amount to `Insert` |
| Repl.NoteStore.EnsureBook | verse_notes.py:335-336 | a missing book gets an empty entry; an existing one is kept |
| Repl.NoteStore.EnsureChapter | verse_notes.py:345-346 | a missing chapter gets an empty entry; an existing one is kept |
| Repl.NoteStore.EnsureVerse | verse_notes.py:354-355 | a missing verse key gets an empty list; an existing one is kept |
| Repl.NoteStore.DeleteNote | verse_notes.py:362-403 | fewer or more than three tokens, a reference without a book, or a number `int()` rejects change nothing; otherwise the store changes as `Deletes` says |
| Repl.NoteStore.DeleteParsed | verse_notes.py:370-374 | a reference without a book is reported first, then a number `int()` rejects, and both change nothing; otherwise the list lookup and pop follow |
| Repl.NoteStore.DeleteAt | verse_notes.py:378-400 | a missing list is not found and a number outside 1..size is out of range, and neither changes the store; otherwise that note is removed with `Remove` and reported with its number |
| Repl.NoteStore.NotesFor | verse_notes.py:134-189 | the lookup returns `Resolve`'s four lists |
| Repl.NoteStore.ShowVerses | verse_notes.py:231-266 | no answer or no verses gives "verse not found"; otherwise each verse is shown with its notes, the count is the number of verses, and when copying the clipboard holds the entries joined by the copy joiner |
| Repl.NoteStore.ShowEach | verse_notes.py:239-253 | the loop shows every verse in answer order and collects its "reference text" entry |
| Repl.NoteStore.ShowVerse | verse_notes.py:240-251 | one verse: its reference and stripped text, and its note block when notes are asked for and its reference names a book |
| Repl.NoteStore.ListAll | verse_notes.py:405-429 | `/allnotes` gives the lines of `AllNotesLines` for the current store |
| Repl.ShownAllAt | verse_notes.py:239-251 | one shown verse per verse of the answer, in order |
| Repl.EntriesAt | verse_notes.py:240-253 | one clipboard entry per verse: its reference, a space and its stripped text |
| Repl.MapSeqAt | verse_notes.py:239-253 | the display loop's lists have one element per verse, each made from that verse |
| Repl.VerseAdded | verse_notes.py:350-356 | the container writes and the append of a verse note, composed, amount to `Insert` |
| Repl.ShownNotes | verse_notes.py:246-251 | a shown verse carries every note of the four resolved lists, in order, only when notes are asked for and its reference names a book, and the header appears exactly when one of those lists is non-empty |
| Repl.UnknownBookNoNotes | verse_notes.py:146-147 | a verse whose book the store does not hold is shown without notes |
| Repl.ClipboardLines | verse_notes.py:253-266 | with the default joiner and entries without line breaks, the clipboard's lines are the verse entries in order |

## Left out

- The HTTP request (lines 223-229) and its error handlers (lines 269-272) are left out. `ShowVerses` takes the answer's verse list as an input. `None` stands for an answer that is empty or has no `verses` field.
- `pyperclip.copy` is left out. The model computes the string that would be copied.
- The console wording, emoji and separator lines are left out. Output is a sequence of `Line` values or a `Display` value, and command results are outcome values.
- The prompt loop (lines 296-321, 431-434, 507-508) is left out. That covers `prompt_toolkit` input and history, `quit`/`exit`, blank input, `/help`, `print_help`, command dispatch and the catch-all error message. Each command method takes its tokens directly.
- `shlex.split` and its mismatched-quote error are left out. The tokens are taken as given.
- `codecs.decode(..., 'unicode_escape')` is not modelled. It is an opaque `Decoder` parameter: a function that may fail.
- The JSON files are left out: `load_notes`, `save_notes`, paths, and the data directory. The two constructors stand for the empty store and a loaded store. The save after each change is not modelled.
- `.env` loading, API configuration and `sys.exit` are left out, because they are configuration.
- Non-ASCII text is left out. Unicode whitespace, Unicode letters in `title()`, and Unicode digits in `\d` and `int()` are not modelled.
- Stores that do not have the shape `/addnote` builds are not modelled. This includes a missing `notes`, `chapters` or `verses` field and fields of the wrong type. The store is typed, so the `.get(..., default)` fallbacks and the `TypeError` branch of `/delnote` are always on the well-shaped path.
- Verse fields that are not strings are left out. The display's `ValueError` for an unparsable response is left out too.
- Repl.NoteStore.AddAt: models in-place mutation of nested dictionaries by storing the changed entry back at every level. Aliasing between the store's lists and lists held elsewhere is not modelled.
- Store.Valid: duplicate-free keys are proved preserved by `InsertValid` and `RemoveValid`. It is not carried as an invariant of the `NoteStore` class, because Python dictionaries cannot hold duplicate keys in the first place.
- Text.ParseInt: does not model the limit of 4300 digits on a decimal string that CPython 3.11 and later enforce, because the limit depends on the interpreter version and on `sys.set_int_max_str_digits`. The model accepts a number of any length.
