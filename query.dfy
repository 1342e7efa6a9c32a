/**
 * A verse query typed at the prompt, after tokenising: the flag scan that separates the flags
 * `-c`, `-s`, `-v`, `-j <joiner>` and `-n <level>` from the words of the reference, the decision
 * whether to fetch, and the choice of the joiner for copied verses.
 */
module Query {
  import opened Wrappers
  import opened Text

  /** What one step of the scan reads: a flag (with its argument) or a query word. */
  datatype Token =
    | CopyFlag
    | SpaciousFlag
    | ViewFlag
    | JoinerFlag(joiner: string)
    | LevelFlag(level: int)
    | Word(word: string)

  datatype ScanError =
    | JoinerMissing      // `-j` is the last token
    | DecoderRaised      // the escape decoder raised on the joiner; nothing catches it
    | LevelMissing       // `-n` is the last token
    | LevelNotANumber    // `int()` rejects the token after `-n`
    | LevelOutOfRange    // the level is not in 1..4

  /** `codecs.decode(s, 'unicode_escape')`: None where it raises. */
  type Decoder = string -> Option<string>

  function Cons(t: Token, r: Result<seq<Token>, ScanError>): Result<seq<Token>, ScanError> {
    match r
    case Ok(ts) => Ok([t] + ts)
    case Err(e) => Err(e)
  }

  function Prepend(done: seq<Token>, r: Result<seq<Token>, ScanError>): Result<seq<Token>, ScanError> {
    match r
    case Ok(ts) => Ok(done + ts)
    case Err(e) => Err(e)
  }

  /** The token at the front of the parts and how many parts it takes, or the error the scan
      stops with there. */
  function Next(parts: seq<string>, decode: Decoder): (r: Result<(Token, nat), ScanError>)
    requires parts != []
    ensures r.Ok? ==> 1 <= r.value.1 <= |parts|
    ensures r.Ok? && r.value.1 == 2 ==> parts[0] in {"-j", "-n"}
    ensures r.Ok? && r.value.0.LevelFlag? ==> 1 <= r.value.0.level <= 4
  {
    var p := parts[0];
    if p == "-c" then Ok((CopyFlag, 1))
    else if p == "-s" then Ok((SpaciousFlag, 1))
    else if p == "-v" then Ok((ViewFlag, 1))
    else if p == "-j" then
      if |parts| < 2 then Err(JoinerMissing)
      else
        match decode(parts[1])
        case None => Err(DecoderRaised)
        case Some(j) => Ok((JoinerFlag(j), 2))
    else if p == "-n" then
      if |parts| < 2 then Err(LevelMissing)
      else
        match ParseInt(parts[1])
        case None => Err(LevelNotANumber)
        case Some(l) => if 1 <= l <= 4 then Ok((LevelFlag(l), 2)) else Err(LevelOutOfRange)
    else Ok((Word(p), 1))
  }

  /** How the scan reads the tokens, front to back, up to the first error. */
  function Tokenize(parts: seq<string>, decode: Decoder): Result<seq<Token>, ScanError>
    decreases |parts|
  {
    if parts == [] then Ok([])
    else
      match Next(parts, decode)
      case Err(e) => Err(e)
      case Ok((t, w)) => Cons(t, Tokenize(parts[w..], decode))
  }

  /** A token read at the front stays the same whatever follows it. */
  lemma NextAppend(a: seq<string>, b: seq<string>, decode: Decoder)
    requires a != [] && Next(a, decode).Ok?
    ensures Next(a + b, decode) == Next(a, decode)
  {
    var s := a + b;
    assert s[0] == a[0];
    if Next(a, decode).value.1 == 2 {
      assert s[1] == a[1];
    } else if a[0] == "-j" || a[0] == "-n" {
      assert s[1] == a[1];
    }
  }

  // What a run of tokens amounts to, each summary read from the last token back.

  /** The flags seen. */
  function Flags(ts: seq<Token>): set<string>
    decreases |ts|
  {
    if ts == [] then {}
    else
      var t := ts[|ts| - 1];
      Flags(ts[..|ts| - 1]) + FlagOf(t)
  }

  /** The query words, in order. */
  function Words(ts: seq<Token>): seq<string>
    decreases |ts|
  {
    if ts == [] then []
    else Words(ts[..|ts| - 1]) + (if ts[|ts| - 1].Word? then [ts[|ts| - 1].word] else [])
  }

  /** The joiner of the last `-j`. */
  function LastJoiner(ts: seq<Token>): Option<string>
    decreases |ts|
  {
    if ts == [] then None
    else if ts[|ts| - 1].JoinerFlag? then Some(ts[|ts| - 1].joiner)
    else LastJoiner(ts[..|ts| - 1])
  }

  /** The level of the last `-n`. */
  function LastLevel(ts: seq<Token>): Option<int>
    decreases |ts|
  {
    if ts == [] then None
    else if ts[|ts| - 1].LevelFlag? then Some(ts[|ts| - 1].level)
    else LastLevel(ts[..|ts| - 1])
  }

  /** The note level: the last `-n` wins wherever `-v` stands; `-v` alone means 2; else 0. */
  function Level(ts: seq<Token>): int {
    match LastLevel(ts)
    case Some(l) => l
    case None => if ViewFlag in ts then 2 else 0
  }

  datatype Query = Query(flags: set<string>, words: seq<string>, joiner: Option<string>, level: int)

  function Summary(ts: seq<Token>): Query {
    Query(Flags(ts), Words(ts), LastJoiner(ts), Level(ts))
  }

  /** The outcome of the flag scan over the tokens of a query. */
  function Scan(parts: seq<string>, decode: Decoder): Result<Query, ScanError> {
    match Tokenize(parts, decode)
    case Ok(ts) => Ok(Summary(ts))
    case Err(e) => Err(e)
  }

  predicate LevelsInRange(ts: seq<Token>) {
    forall k :: 0 <= k < |ts| && ts[k].LevelFlag? ==> 1 <= ts[k].level <= 4
  }

  /** How one token moves the scan's variables: a flag joins the flag set, a word the query
      words, `-j` sets the joiner, `-n` the level, and `-v` the level 2 while it is still 0. */
  function Apply(q: Query, t: Token): Query {
    match t
    case CopyFlag => q.(flags := q.flags + {"-c"})
    case SpaciousFlag => q.(flags := q.flags + {"-s"})
    case ViewFlag => q.(flags := q.flags + {"-v"}, level := if q.level == 0 then 2 else q.level)
    case JoinerFlag(j) => q.(joiner := Some(j))
    case LevelFlag(l) => q.(level := l)
    case Word(w) => q.(words := q.words + [w])
  }

  /** One pass of the loop body at position i: the next position and the new variables, or the
      error that ends the scan. */
  method ScanStep(parts: seq<string>, decode: Decoder, i: nat, q: Query) returns (r: Result<(Query, nat), ScanError>, ghost t: Token, ghost w: nat)
    requires i < |parts|
    ensures Next(parts[i..], decode) == (if r.Ok? then Ok((t, w)) else Err(r.error))
    ensures r.Ok? ==> r.value == (Apply(q, t), i + w)
  {
    t, w := Word(parts[i]), 1;
    var part := parts[i];
    assert parts[i..][0] == part;
    if part == "-c" {
      r, t := Ok((q.(flags := q.flags + {"-c"}), i + 1)), CopyFlag;
    } else if part == "-s" {
      r, t := Ok((q.(flags := q.flags + {"-s"}), i + 1)), SpaciousFlag;
    } else if part == "-v" {
      var level := q.level;
      if level == 0 {
        level := 2;
      }
      r, t := Ok((q.(flags := q.flags + {"-v"}, level := level), i + 1)), ViewFlag;
    } else if part == "-j" {
      r, t, w := ScanJoiner(parts, decode, i, q);
    } else if part == "-n" {
      r, t, w := ScanLevelArg(parts, i, decode, q);
    } else {
      r := Ok((q.(words := q.words + [part]), i + 1));
    }
  }

  /** `-j`: the decoded next token becomes the joiner; a missing token is an error. */
  method ScanJoiner(parts: seq<string>, decode: Decoder, i: nat, q: Query) returns (r: Result<(Query, nat), ScanError>, ghost t: Token, ghost w: nat)
    requires i < |parts| && parts[i] == "-j"
    ensures Next(parts[i..], decode) == (if r.Ok? then Ok((t, w)) else Err(r.error))
    ensures r.Ok? ==> r.value == (Apply(q, t), i + w)
  {
    assert parts[i..][0] == "-j";
    t, w := Word(parts[i]), 1;
    if i + 1 < |parts| {
      assert parts[i..][1] == parts[i + 1];
      match decode(parts[i + 1])
      case None =>
        r := Err(DecoderRaised);
      case Some(j) =>
        r, t, w := Ok((q.(joiner := Some(j)), i + 2)), JoinerFlag(j), 2;
    } else {
      r := Err(JoinerMissing);
    }
  }

  /** `-n`: the next token, read by `int()`, becomes the level when it is in 1..4; a missing
      token, a non-number and a level out of range are errors. */
  method ScanLevelArg(parts: seq<string>, i: nat, ghost decode: Decoder, q: Query) returns (r: Result<(Query, nat), ScanError>, ghost t: Token, ghost w: nat)
    requires i < |parts| && parts[i] == "-n"
    ensures Next(parts[i..], decode) == (if r.Ok? then Ok((t, w)) else Err(r.error))
    ensures r.Ok? ==> r.value == (Apply(q, t), i + w)
  {
    assert parts[i..][0] == "-n";
    t, w := Word(parts[i]), 1;
    if i + 1 < |parts| {
      assert parts[i..][1] == parts[i + 1];
      match ParseInt(parts[i + 1])
      case None =>
        r := Err(LevelNotANumber);
      case Some(level) =>
        if 1 <= level <= 4 {
          r, t, w := Ok((q.(level := level), i + 2)), LevelFlag(level), 2;
        } else {
          r := Err(LevelOutOfRange);
        }
    } else {
      r := Err(LevelMissing);
    }
  }

  /** The `while i < len(parts)` loop: it stops at the first malformed `-j` or `-n`, and
      otherwise ends with the summary of all the tokens. */
  method ScanFlags(parts: seq<string>, decode: Decoder) returns (r: Result<Query, ScanError>)
    ensures r == Scan(parts, decode)
  {
    var q := Query({}, [], None, 0);
    ghost var done: seq<Token> := [];
    var i := 0;
    PrependEmpty(Tokenize(parts, decode));
    assert parts[0..] == parts;
    while i < |parts|
      invariant i <= |parts|
      invariant Tokenize(parts, decode) == Prepend(done, Tokenize(parts[i..], decode))
      invariant LevelsInRange(done)
      invariant q == Summary(done)
      decreases |parts| - i
    {
      var step, t, w := ScanStep(parts, decode, i, q);
      match step
      case Err(e) =>
        Stop(parts, decode, i, done);
        return Err(e);
      case Ok((q', i')) =>
        Maintain(parts, decode, i, done, t, w, i');
        done := done + [t];
        q, i := q', i';
    }
    assert parts[i..] == [];
    assert done + [] == done;
    r := Ok(q);
  }

  /** The flag a token sets. */
  function FlagOf(t: Token): set<string> {
    if t.CopyFlag? then {"-c"} else if t.SpaciousFlag? then {"-s"} else if t.ViewFlag? then {"-v"} else {}
  }

  /** One token more: what is left to read shrinks by the token, and the tokens read so far
      grow by it. */
  lemma Advance(parts: seq<string>, decode: Decoder, i: nat, done: seq<Token>, t: Token, w: nat, j: nat)
    requires i < |parts| && Next(parts[i..], decode) == Ok((t, w)) && j == i + w
    requires Tokenize(parts, decode) == Prepend(done, Tokenize(parts[i..], decode))
    requires LevelsInRange(done)
    ensures j <= |parts|
    ensures Tokenize(parts, decode) == Prepend(done + [t], Tokenize(parts[j..], decode))
    ensures LevelsInRange(done + [t])
  {
    assert parts[i..][w..] == parts[j..];
    var r := Tokenize(parts[j..], decode);
    assert Tokenize(parts[i..], decode) == Cons(t, r);
    PrependSnoc(done, t, r);
    LevelsSnoc(done, t);
  }


  lemma PrependSnoc(done: seq<Token>, t: Token, r: Result<seq<Token>, ScanError>)
    ensures Prepend(done, Cons(t, r)) == Prepend(done + [t], r)
  {
    if r.Ok? {
      assert done + ([t] + r.value) == (done + [t]) + r.value;
    }
  }

  lemma LevelsSnoc(done: seq<Token>, t: Token)
    requires LevelsInRange(done)
    requires t.LevelFlag? ==> 1 <= t.level <= 4
    ensures LevelsInRange(done + [t])
  {
    var d := done + [t];
    assert forall k :: 0 <= k < |done| ==> d[k] == done[k];
  }

  /** The loop body, folded over the tokens, computes their summary: the last `-n` wins over
      any `-v`, wherever the `-v` stands. */
  lemma SummaryStep(done: seq<Token>, t: Token)
    requires LevelsInRange(done)
    requires t.LevelFlag? ==> 1 <= t.level <= 4
    ensures Summary(done + [t]) == Apply(Summary(done), t)
  {
    var d := done + [t];
    assert d[..|d| - 1] == done;
    assert Flags(d) == Flags(done) + FlagOf(t);
    assert Words(d) == Words(done) + (if t.Word? then [t.word] else []);
    assert LastJoiner(d) == if t.JoinerFlag? then Some(t.joiner) else LastJoiner(done);
    LevelStep(done, t);
  }

  lemma LevelStep(done: seq<Token>, t: Token)
    requires LevelsInRange(done)
    requires t.LevelFlag? ==> 1 <= t.level <= 4
    ensures Level(done + [t]) == if t.LevelFlag? then t.level
                                 else if t.ViewFlag? && Level(done) == 0 then 2
                                 else Level(done)
  {
    var d := done + [t];
    assert d[..|d| - 1] == done;
    if t.ViewFlag? && LastLevel(done).None? {
      assert ViewFlag in d;
    }
    if t.ViewFlag? && LastLevel(done).Some? {
      LastLevelInRange(done);
    }
    if !t.ViewFlag? {
      assert ViewFlag in d <==> ViewFlag in done;
    }
  }

  /** The loop invariant survives a pass of the loop body that reads a token. */
  lemma Maintain(parts: seq<string>, decode: Decoder, i: nat, done: seq<Token>, t: Token, w: nat, j: nat)
    requires i < |parts| && Next(parts[i..], decode) == Ok((t, w)) && j == i + w
    requires Tokenize(parts, decode) == Prepend(done, Tokenize(parts[i..], decode))
    requires LevelsInRange(done)
    ensures i < j <= |parts|
    ensures Tokenize(parts, decode) == Prepend(done + [t], Tokenize(parts[j..], decode))
    ensures LevelsInRange(done + [t]) && Summary(done + [t]) == Apply(Summary(done), t)
  {
    Advance(parts, decode, i, done, t, w, j);
    SummaryStep(done, t);
  }

  /** An error at the front of what is left is the error of the whole scan. */
  lemma Stop(parts: seq<string>, decode: Decoder, i: nat, done: seq<Token>)
    requires i < |parts| && Next(parts[i..], decode).Err?
    requires Tokenize(parts, decode) == Prepend(done, Tokenize(parts[i..], decode))
    ensures Scan(parts, decode) == Err(Next(parts[i..], decode).error)
  {
  }

  lemma {:induction false} LastLevelInRange(ts: seq<Token>)
    requires LevelsInRange(ts)
    ensures LastLevel(ts).Some? ==> 1 <= LastLevel(ts).value <= 4
    decreases |ts|
  {
    if ts != [] && !ts[|ts| - 1].LevelFlag? {
      LastLevelInRange(ts[..|ts| - 1]);
    }
  }

  // Properties of the scan.

  /** The scan reads every `-n` level it accepts in 1..4. */
  lemma {:induction false} TokenizeLevels(parts: seq<string>, decode: Decoder)
    ensures Tokenize(parts, decode).Ok? ==> LevelsInRange(Tokenize(parts, decode).value)
    decreases |parts|
  {
    if parts != [] && Next(parts, decode).Ok? {
      var (t, w) := Next(parts, decode).value;
      TokenizeLevels(parts[w..], decode);
    }
  }

  lemma {:induction false} NoLevelNoView(ts: seq<Token>)
    requires LastLevel(ts).None?
    ensures forall k :: 0 <= k < |ts| ==> !ts[k].LevelFlag?
    decreases |ts|
  {
    if ts != [] {
      NoLevelNoView(ts[..|ts| - 1]);
      forall k | 0 <= k < |ts| - 1 ensures !ts[k].LevelFlag? {
        assert ts[k] == ts[..|ts| - 1][k];
      }
    }
  }

  /** The level of a scanned query is 0..4, and it is 0 exactly when neither `-v` nor `-n`
      was given. */
  lemma ScanLevel(parts: seq<string>, decode: Decoder)
    requires Scan(parts, decode).Ok?
    ensures var ts := Tokenize(parts, decode).value;
      0 <= Scan(parts, decode).value.level <= 4
      && (Scan(parts, decode).value.level == 0 <==>
          ViewFlag !in ts && forall k :: 0 <= k < |ts| ==> !ts[k].LevelFlag?)
  {
    var ts := Tokenize(parts, decode).value;
    TokenizeLevels(parts, decode);
    LastLevelInRange(ts);
    if LastLevel(ts).None? {
      NoLevelNoView(ts);
    } else {
      LevelWitness(ts);
    }
  }

  lemma {:induction false} LevelWitness(ts: seq<Token>)
    requires LastLevel(ts).Some?
    ensures exists k :: 0 <= k < |ts| && ts[k].LevelFlag?
    decreases |ts|
  {
    if !ts[|ts| - 1].LevelFlag? {
      LevelWitness(ts[..|ts| - 1]);
      var k :| 0 <= k < |ts| - 1 && ts[..|ts| - 1][k].LevelFlag?;
      assert ts[k] == ts[..|ts| - 1][k];
    }
  }

  lemma PrependEmpty(r: Result<seq<Token>, ScanError>)
    ensures Prepend([], r) == r
  {
    if r.Ok? {
      assert [] + r.value == r.value;
    }
  }

  lemma PrependCons(t: Token, ts: seq<Token>, r: Result<seq<Token>, ScanError>)
    ensures Prepend([t] + ts, r) == Cons(t, Prepend(ts, r))
  {
    if r.Ok? {
      assert [t] + (ts + r.value) == ([t] + ts) + r.value;
    }
  }

  /** A prefix the scan reads completely is read the same way in front of any further tokens. */
  lemma {:induction false} TokenizeAppend(a: seq<string>, b: seq<string>, decode: Decoder)
    requires Tokenize(a, decode).Ok?
    ensures Tokenize(a + b, decode) == Prepend(Tokenize(a, decode).value, Tokenize(b, decode))
    decreases |a|
  {
    if a == [] {
      assert a + b == b;
      PrependEmpty(Tokenize(b, decode));
    } else {
      NextAppend(a, b, decode);
      var (t, w) := Next(a, decode).value;
      assert (a + b)[w..] == a[w..] + b;
      TokenizeAppend(a[w..], b, decode);
      PrependCons(t, Tokenize(a[w..], decode).value, Tokenize(b, decode));
    }
  }

  /** After any prefix it reads completely, a `-j` as the last token, a `-n` as the last token, or a
      `-n` whose argument is not an integer in 1..4 ends the scan in an error. */
  lemma ScanRejects(a: seq<string>, x: string, b: seq<string>, decode: Decoder)
    requires Tokenize(a, decode).Ok?
    ensures Scan(a + ["-j"], decode) == Err(JoinerMissing)
    ensures Scan(a + ["-n"], decode) == Err(LevelMissing)
    ensures ParseInt(x).None? ==> Scan(a + ["-n", x] + b, decode) == Err(LevelNotANumber)
    ensures ParseInt(x).Some? && !(1 <= ParseInt(x).value <= 4) ==>
      Scan(a + ["-n", x] + b, decode) == Err(LevelOutOfRange)
  {
    TokenizeAppend(a, ["-j"], decode);
    TokenizeAppend(a, ["-n"], decode);
    assert a + ["-n", x] + b == a + (["-n", x] + b);
    TokenizeAppend(a, ["-n", x] + b, decode);
    assert (["-n", x] + b)[1] == x;
  }

  /** Tokens that are not flags are all query words, kept in order. */
  lemma {:induction false} PlainWords(parts: seq<string>, decode: Decoder)
    requires forall k :: 0 <= k < |parts| ==> parts[k] !in {"-c", "-s", "-v", "-j", "-n"}
    ensures Scan(parts, decode) == Ok(Query({}, parts, None, 0))
    decreases |parts|
  {
    if parts != [] {
      var init := parts[..|parts| - 1];
      PlainWords(init, decode);
      TokenizeAppend(init, [parts[|parts| - 1]], decode);
      assert init + [parts[|parts| - 1]] == parts;
      var ts := Tokenize(init, decode).value;
      var x := parts[|parts| - 1];
      assert [x][1..] == [];
      assert Next([x], decode) == Ok((Word(x), 1));
      assert Tokenize([x][1..], decode) == Ok([]);
      assert [Word(x)] + [] == [Word(x)];
      assert Tokenize([x], decode) == Ok([Word(x)]);
      TokenizeLevels(init, decode);
      SummaryStep(ts, Word(x));
    }
  }

  lemma NotViewed(ts: seq<Token>)
    requires LevelsInRange(ts) && Level(ts) == 0 && Flags(ts) == {}
    ensures ViewFlag !in ts && LastLevel(ts).None?
  {
    LevelFlagged(ts);
    LastLevelInRange(ts);
  }

  lemma {:induction false} LevelFlagged(ts: seq<Token>)
    ensures ViewFlag in ts ==> "-v" in Flags(ts)
    decreases |ts|
  {
    if ts != [] {
      var init := ts[..|ts| - 1];
      LevelFlagged(init);
      if ViewFlag in ts && ts[|ts| - 1] != ViewFlag {
        var k :| 0 <= k < |ts| && ts[k] == ViewFlag;
        assert init[k] == ViewFlag;
      }
    }
  }

  // After the scan.

  datatype Action =
    | Abort                                   // the decoder's error ends the program
    | Rejected(error: ScanError)              // the scan printed an error; next prompt
    | FlagsWithoutQuery                       // "Flags must be used with a verse reference."
    | Idle                                    // nothing to do
    | Fetch(query: string, copy: bool, level: int, spacious: bool, joiner: Option<string>)

  /** What the prompt does with a scanned query: fetch the words joined by spaces, when they
      are not empty. */
  function Decide(r: Result<Query, ScanError>): (a: Action)
    ensures a.Fetch? <==> r.Ok? && Join(" ", r.value.words) != ""
    ensures a.Fetch? ==> a.query != "" && a.level == r.value.level && a.joiner == r.value.joiner
    ensures a == FlagsWithoutQuery <==>
      r.Ok? && Join(" ", r.value.words) == "" && (r.value.flags != {} || r.value.joiner.Some? || r.value.level > 0)
  {
    match r
    case Err(DecoderRaised) => Abort
    case Err(e) => Rejected(e)
    case Ok(q) =>
      var verseQuery := Join(" ", q.words);
      if verseQuery == "" then
        if q.flags != {} || q.joiner.Some? || q.level > 0 then FlagsWithoutQuery else Idle
      else Fetch(verseQuery, "-c" in q.flags, q.level, "-s" in q.flags, q.joiner)
  }

  /** A query of plain words is fetched as those words joined by spaces, without notes or copying. */
  lemma PlainFetch(parts: seq<string>, decode: Decoder)
    requires forall k :: 0 <= k < |parts| ==> parts[k] !in {"-c", "-s", "-v", "-j", "-n"}
    requires Join(" ", parts) != ""
    ensures Decide(Scan(parts, decode)) == Fetch(Join(" ", parts), false, 0, false, None)
  {
    PlainWords(parts, decode);
  }

  /** Flags without a reference are never fetched and are reported. */
  lemma FlagsOnly(parts: seq<string>, decode: Decoder)
    requires forall k :: 0 <= k < |parts| ==> parts[k] in {"-c", "-s", "-v"}
    requires parts != []
    ensures Decide(Scan(parts, decode)) == FlagsWithoutQuery
  {
    FlagsOnlyTokens(parts, decode);
    var ts := Tokenize(parts, decode).value;
    LevelFlagged(ts);
    assert ts[0] in ts;
    FlagSeen(ts, 0);
  }

  lemma {:induction false} FlagsOnlyTokens(parts: seq<string>, decode: Decoder)
    requires forall k :: 0 <= k < |parts| ==> parts[k] in {"-c", "-s", "-v"}
    ensures Tokenize(parts, decode).Ok?
    ensures var ts := Tokenize(parts, decode).value;
      |ts| == |parts| && Words(ts) == [] && LastJoiner(ts).None?
      && forall k :: 0 <= k < |ts| ==> ts[k] in {CopyFlag, SpaciousFlag, ViewFlag}
    decreases |parts|
  {
    if parts != [] {
      var init := parts[..|parts| - 1];
      FlagsOnlyTokens(init, decode);
      var last := parts[|parts| - 1];
      TokenizeAppend(init, [last], decode);
      assert init + [last] == parts;
      var ti := Tokenize(init, decode).value;
      var t := if last == "-c" then CopyFlag else if last == "-s" then SpaciousFlag else ViewFlag;
      assert [last][1..] == [];
      assert Next([last], decode) == Ok((t, 1));
      var ts := ti + [t];
      assert ts[..|ts| - 1] == ti;
    }
  }

  lemma {:induction false} FlagSeen(ts: seq<Token>, k: nat)
    requires k < |ts| && ts[k] in {CopyFlag, SpaciousFlag, ViewFlag}
    ensures Flags(ts) != {}
    decreases |ts|
  {
    if k < |ts| - 1 {
      assert ts[..|ts| - 1][k] == ts[k];
      FlagSeen(ts[..|ts| - 1], k);
    }
  }

  // The copy joiner.

  /** `final_joiner`: an explicit `-j` joiner, else a blank line between verses with `-s`, else a
      line break. */
  function CopyJoiner(joiner: Option<string>, spacious: bool): (j: string)
    ensures joiner.Some? ==> j == joiner.value
    ensures joiner.None? ==> j == (if spacious then "\n\n" else "\n")
  {
    match joiner
    case Some(s) => s
    case None => if spacious then "\n\n" else "\n"
  }

  /** The text put on the clipboard: one entry per verse, joined by the copy joiner. */
  function CopyText(entries: seq<string>, joiner: Option<string>, spacious: bool): string {
    Join(CopyJoiner(joiner, spacious), entries)
  }

  /** With the default joiner, splitting the copied text at line breaks gives back the verse
      entries, when none of them holds a line break. */
  lemma CopyTextLines(entries: seq<string>)
    requires |entries| >= 1
    requires forall k :: 0 <= k < |entries| ==> '\n' !in entries[k]
    ensures Split(CopyText(entries, None, false), '\n') == entries
  {
    assert CopyJoiner(None, false) == ['\n'];
    SplitJoin(entries, '\n');
  }
}
