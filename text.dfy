/**
 * The pieces of Python's string handling that the note tool relies on, over ASCII:
 * the regex classes `\s`, `\d` and `[A-Za-z]`, `str.strip()`, `str.title()`,
 * `str.join`, `str.split(c)` and `int(str)`.
 */
module Text {
  import opened Wrappers

  /** `\s` and `str.isspace()` restricted to ASCII: tab through carriage return, the four
      separator controls 0x1C..0x1F, and the space. */
  predicate IsSpace(c: char) {
    c == ' ' || ('\t' <= c <= '\r') || ('\U{1C}' <= c <= '\U{1F}')
  }

  predicate IsDigit(c: char) { '0' <= c <= '9' }

  predicate IsUpper(c: char) { 'A' <= c <= 'Z' }

  predicate IsLower(c: char) { 'a' <= c <= 'z' }

  /** ASCII letters are the only cased characters of the model. */
  predicate IsLetter(c: char) { IsUpper(c) || IsLower(c) }

  function Lower(c: char): char {
    if IsUpper(c) then (c as int + 32) as char else c
  }

  function Upper(c: char): char {
    if IsLower(c) then (c as int - 32) as char else c
  }

  /** Two characters that fold to the same lower case are both letters or are equal. */
  lemma FoldFacts(x: char, y: char)
    requires Lower(x) == Lower(y)
    ensures IsLetter(x) == IsLetter(y)
    ensures !IsLetter(x) ==> x == y
    ensures Upper(x) == Upper(y)
  {
  }

  /** Every character of s satisfies p. */
  predicate All(s: string, p: char -> bool) {
    forall k :: 0 <= k < |s| ==> p(s[k])
  }

  /** a and b differ only in the case of their letters. */
  predicate CaseEq(a: string, b: string) {
    |a| == |b| && forall k :: 0 <= k < |a| ==> Lower(a[k]) == Lower(b[k])
  }

  /** Position where the longest run of characters satisfying p that starts at i ends. */
  function Span(s: string, i: nat, p: char -> bool): (j: nat)
    requires i <= |s|
    ensures i <= j <= |s|
    ensures forall k :: i <= k < j ==> p(s[k])
    ensures j == |s| || !p(s[j])
    decreases |s| - i
  {
    if i < |s| && p(s[i]) then Span(s, i + 1, p) else i
  }

  /** Position where the longest run of characters satisfying p that ends at j, and does not
      reach below lo, begins. */
  function SpanBack(s: string, j: nat, lo: nat, p: char -> bool): (i: nat)
    requires lo <= j <= |s|
    ensures lo <= i <= j
    ensures forall k :: i <= k < j ==> p(s[k])
    ensures i == lo || !p(s[i - 1])
    decreases j
  {
    if lo < j && p(s[j - 1]) then SpanBack(s, j - 1, lo, p) else j
  }

  /** The run of p-characters from i to j, followed by a character that is not one, is the span. */
  lemma {:induction false} SpanExact(s: string, i: nat, j: nat, p: char -> bool)
    requires i <= j <= |s|
    requires forall k :: i <= k < j ==> p(s[k])
    requires j == |s| || !p(s[j])
    ensures Span(s, i, p) == j
    decreases j - i
  {
    if i < j {
      SpanExact(s, i + 1, j, p);
    }
  }

  /** The run of p-characters from i back to lo, preceded by a character that is not one, is
      the backward span. */
  lemma {:induction false} SpanBackExact(s: string, j: nat, lo: nat, i: nat, p: char -> bool)
    requires lo <= i <= j <= |s|
    requires forall k :: i <= k < j ==> p(s[k])
    requires i == lo || !p(s[i - 1])
    ensures SpanBack(s, j, lo, p) == i
    decreases j - i
  {
    if i < j {
      SpanBackExact(s, j - 1, lo, i, p);
    }
  }

  /** Two strings on which p agrees position by position have the same runs. */
  lemma {:induction false} SpanAgree(a: string, b: string, i: nat, p: char -> bool)
    requires |a| == |b| && i <= |a|
    requires forall k :: 0 <= k < |a| ==> p(a[k]) == p(b[k])
    ensures Span(a, i, p) == Span(b, i, p)
    decreases |a| - i
  {
    if i < |a| && p(a[i]) {
      SpanAgree(a, b, i + 1, p);
    }
  }

  lemma {:induction false} SpanBackAgree(a: string, b: string, j: nat, lo: nat, p: char -> bool)
    requires |a| == |b| && lo <= j <= |a|
    requires forall k :: 0 <= k < |a| ==> p(a[k]) == p(b[k])
    ensures SpanBack(a, j, lo, p) == SpanBack(b, j, lo, p)
    decreases j
  {
    if lo < j && p(a[j - 1]) {
      SpanBackAgree(a, b, j - 1, lo, p);
    }
  }

  /** The slice `str.strip()` keeps: everything outside it is whitespace, and the slice neither
      starts nor ends with whitespace (an all-whitespace string keeps nothing). */
  function StripBounds(s: string): (r: (nat, nat))
    ensures r.0 <= r.1 <= |s|
    ensures forall k :: 0 <= k < r.0 ==> IsSpace(s[k])
    ensures forall k :: r.1 <= k < |s| ==> IsSpace(s[k])
    ensures r.0 < r.1 ==> !IsSpace(s[r.0]) && !IsSpace(s[r.1 - 1])
    ensures r.0 == r.1 ==> r.0 == |s|
  {
    var a := Span(s, 0, IsSpace);
    (a, SpanBack(s, |s|, a, IsSpace))
  }

  /** Python's `s.strip()`. */
  function Strip(s: string): (r: string)
    ensures |r| <= |s|
    ensures r == [] || (!IsSpace(r[0]) && !IsSpace(r[|r| - 1]))
    ensures r == [] <==> All(s, IsSpace)
    ensures s == [] || (!IsSpace(s[0]) && !IsSpace(s[|s| - 1])) ==> r == s
  {
    var b := StripBounds(s);
    s[b.0..b.1]
  }

  /** Whitespace appended to a string does not change what `strip()` keeps. */
  lemma StripAppendSpaces(x: string, w: string)
    requires All(w, IsSpace)
    ensures Strip(x + w) == Strip(x)
  {
    var s := x + w;
    var (a, b) := StripBounds(x);
    AppendedSpaces(x, w);
    StripBoundsAppend(x, s, a, b);
    if a < b {
      assert s[a..b] == x[a..b];
    }
  }

  /** A string that agrees with x on x's positions and has only whitespace after them strips
      at x's bounds, or to nothing when x is all whitespace. */
  lemma StripBoundsAppend(x: string, s: string, a: nat, b: nat)
    requires (a, b) == StripBounds(x) && |x| <= |s|
    requires forall k :: 0 <= k < |x| ==> s[k] == x[k]
    requires forall k :: |x| <= k < |s| ==> IsSpace(s[k])
    ensures StripBounds(s) == if a == b then (|s|, |s|) else (a, b)
  {
    if a == b {
      SpanExact(s, 0, |s|, IsSpace);
    } else {
      SpanExact(s, 0, a, IsSpace);
      SpanBackExact(s, |s|, a, b, IsSpace);
    }
  }

  lemma AppendedSpaces(x: string, w: string)
    requires All(w, IsSpace)
    ensures forall k :: 0 <= k < |x| ==> (x + w)[k] == x[k]
    ensures forall k :: |x| <= k < |x + w| ==> IsSpace((x + w)[k])
  {
    forall k | |x| <= k < |x + w| ensures IsSpace((x + w)[k]) {
      assert (x + w)[k] == w[k - |x|];
    }
  }

  /** Strings that differ only in letter case strip at the same positions. */
  lemma StripCaseEq(a: string, b: string)
    requires CaseEq(a, b)
    ensures StripBounds(a) == StripBounds(b)
    ensures CaseEq(Strip(a), Strip(b))
  {
    SpacesCaseBlind(a, b);
    SpanAgree(a, b, 0, IsSpace);
    var lo := Span(a, 0, IsSpace);
    SpanBackAgree(a, b, |a|, lo, IsSpace);
    var (i, j) := StripBounds(a);
    SliceCaseEq(a, b, i, j);
  }

  lemma SpacesCaseBlind(a: string, b: string)
    requires CaseEq(a, b)
    ensures forall k :: 0 <= k < |a| ==> IsSpace(a[k]) == IsSpace(b[k])
  {
    forall k | 0 <= k < |a| ensures IsSpace(a[k]) == IsSpace(b[k]) {
      FoldFacts(a[k], b[k]);
    }
  }

  lemma SliceCaseEq(a: string, b: string, i: nat, j: nat)
    requires CaseEq(a, b) && i <= j <= |a|
    ensures CaseEq(a[i..j], b[i..j])
  {
    assert forall k :: 0 <= k < j - i ==> a[i..j][k] == a[i + k] && b[i..j][k] == b[i + k];
  }

  /** The character `str.title()` writes for c: lower case right after a letter, upper case
      otherwise; non-letters are kept. */
  function TitleChar(c: char, afterLetter: bool): char {
    if afterLetter then Lower(c) else Upper(c)
  }

  lemma TitleCharFacts(c: char, afterLetter: bool)
    ensures Lower(TitleChar(c, afterLetter)) == Lower(c)
    ensures IsLetter(TitleChar(c, afterLetter)) == IsLetter(c)
    ensures IsSpace(TitleChar(c, afterLetter)) == IsSpace(c)
  {
  }

  function TitleFrom(s: string, afterLetter: bool): (r: string)
    ensures |r| == |s|
    ensures forall k {:trigger r[k]} :: 0 <= k < |s| ==>
      r[k] == TitleChar(s[k], if k == 0 then afterLetter else IsLetter(s[k - 1]))
    decreases |s|
  {
    if s == [] then [] else [TitleChar(s[0], afterLetter)] + TitleFrom(s[1..], IsLetter(s[0]))
  }

  /** Every letter is upper case at the start of a word and lower case inside one. */
  ghost predicate IsTitled(t: string) {
    (|t| > 0 && IsLetter(t[0]) ==> IsUpper(t[0]))
    && forall j, k {:trigger t[j], t[k]} :: 0 <= j < |t| && k == j + 1 && k < |t| && IsLetter(t[k]) ==>
         if IsLetter(t[j]) then IsLower(t[k]) else IsUpper(t[k])
  }

  /** Python's `s.title()` for ASCII: each character as `TitleChar` writes it after the
      character before it. */
  function Title(s: string): (r: string)
    ensures |r| == |s|
    ensures forall k {:trigger r[k]} :: 0 <= k < |s| ==> r[k] == TitleChar(s[k], k > 0 && IsLetter(s[k - 1]))
  {
    TitleFrom(s, false)
  }

  /** `title()` keeps the letters and the whitespace, and leaves the text in title case. */
  lemma TitleNormalises(s: string)
    ensures CaseEq(Title(s), s) && IsTitled(Title(s))
    ensures forall k :: 0 <= k < |s| ==> (IsSpace(Title(s)[k]) <==> IsSpace(s[k]))
  {
    var r := Title(s);
    forall k | 0 <= k < |s|
      ensures Lower(r[k]) == Lower(s[k]) && IsLetter(r[k]) == IsLetter(s[k]) && IsSpace(r[k]) == IsSpace(s[k])
    {
      TitleCharFacts(s[k], k > 0 && IsLetter(s[k - 1]));
    }
  }

  /** Letter case in the input does not matter to `title()`. */
  lemma TitleCaseEq(a: string, b: string)
    requires CaseEq(a, b)
    ensures Title(a) == Title(b)
  {
    var ta, tb := Title(a), Title(b);
    forall k | 0 <= k < |a| ensures ta[k] == tb[k] {
      FoldFacts(a[k], b[k]);
      if k > 0 { FoldFacts(a[k - 1], b[k - 1]); }
    }
  }

  /** Text already in title case is left as it is by `title()`. */
  lemma TitleOfTitled(t: string)
    requires IsTitled(t)
    ensures Title(t) == t
  {
    forall k | 0 <= k < |t| ensures Title(t)[k] == t[k] {
      if k > 0 {
        assert IsLetter(t[k]) ==> if IsLetter(t[k - 1]) then IsLower(t[k]) else IsUpper(t[k]);
      }
    }
  }

  /** `title()` applied twice changes nothing more. */
  lemma TitleIdempotent(s: string)
    ensures Title(Title(s)) == Title(s)
  {
    TitleNormalises(s);
    TitleOfTitled(Title(s));
  }

  /** Python's `sep.join(parts)`. */
  function Join(sep: string, parts: seq<string>): string
    decreases |parts|
  {
    if |parts| == 0 then ""
    else if |parts| == 1 then parts[0]
    else parts[0] + sep + Join(sep, parts[1..])
  }

  /** Joining two non-empty runs of parts puts one separator between the two joins. */
  lemma {:induction false} JoinAppend(sep: string, a: seq<string>, b: seq<string>)
    requires |a| > 0 && |b| > 0
    ensures Join(sep, a + b) == Join(sep, a) + sep + Join(sep, b)
    decreases |a|
  {
    if |a| == 1 {
      assert a + b == [a[0]] + b;
    } else {
      assert (a + b)[1..] == a[1..] + b;
      JoinAppend(sep, a[1..], b);
    }
  }

  /** Python's `s.split(c)`: the pieces between the occurrences of c. */
  function Split(s: string, c: char): (parts: seq<string>)
    ensures |parts| >= 1
    decreases |s|
  {
    if s == [] then [""]
    else
      var rest := Split(s[1..], c);
      if s[0] == c then [""] + rest
      else [[s[0]] + rest[0]] + rest[1..]
  }

  /** No piece holds the separator. */
  lemma {:induction false} SplitNoSeparator(s: string, c: char)
    ensures forall k :: 0 <= k < |Split(s, c)| ==> c !in Split(s, c)[k]
    decreases |s|
  {
    if s != [] {
      SplitNoSeparator(s[1..], c);
    }
  }

  /** Joining the pieces with the separator gives the text back. */
  lemma {:induction false} SplitJoinBack(s: string, c: char)
    ensures Join([c], Split(s, c)) == s
    decreases |s|
  {
    if s != [] {
      var rest := Split(s[1..], c);
      SplitJoinBack(s[1..], c);
      if s[0] == c {
        if |rest| == 1 {
          assert Join([c], [""] + rest) == "" + [c] + rest[0];
        } else {
          assert ([""] + rest)[1..] == rest;
        }
      } else {
        var parts := [[s[0]] + rest[0]] + rest[1..];
        if |rest| == 1 {
          assert parts == [[s[0]] + rest[0]];
        } else {
          assert parts[1..] == rest[1..];
          assert Join([c], rest) == rest[0] + [c] + Join([c], rest[1..]);
        }
        assert s == [s[0]] + s[1..];
      }
    }
  }

  lemma {:induction false} SplitPrefix(x: string, c: char, t: string)
    requires c !in x
    ensures Split(x + [c] + t, c) == [x] + Split(t, c)
    decreases |x|
  {
    if x == [] {
      assert x + [c] + t == [c] + t;
      assert ([c] + t)[1..] == t;
    } else {
      assert (x + [c] + t)[1..] == x[1..] + [c] + t;
      SplitPrefix(x[1..], c, t);
      assert [x[0]] + x[1..] == x;
    }
  }

  lemma {:induction false} SplitWhole(x: string, c: char)
    requires c !in x
    ensures Split(x, c) == [x]
    decreases |x|
  {
    if x != [] {
      SplitWhole(x[1..], c);
      assert [x[0]] + x[1..] == x;
    }
  }

  /** Splitting undoes joining, when no part holds the separator. */
  lemma {:induction false} SplitJoin(parts: seq<string>, c: char)
    requires |parts| >= 1
    requires forall k :: 0 <= k < |parts| ==> c !in parts[k]
    ensures Split(Join([c], parts), c) == parts
    decreases |parts|
  {
    if |parts| == 1 {
      SplitWhole(parts[0], c);
    } else {
      SplitJoin(parts[1..], c);
      SplitPrefix(parts[0], c, Join([c], parts[1..]));
      assert [parts[0]] + parts[1..] == parts;
    }
  }

  function DigitValue(c: char): nat
    requires IsDigit(c)
  {
    c as int - '0' as int
  }

  function DigitChar(d: nat): (c: char)
    requires d < 10
    ensures IsDigit(c) && DigitValue(c) == d
  {
    ('0' as int + d) as char
  }

  /** Digits with single underscores between them: the body Python's `int()` accepts. */
  predicate IsDigitGroups(s: string) {
    |s| > 0 && IsDigit(s[0]) && IsDigit(s[|s| - 1])
    && (forall k :: 0 <= k < |s| ==> IsDigit(s[k]) || s[k] == '_')
    && (forall k :: 0 <= k < |s| - 1 && s[k] == '_' ==> s[k + 1] != '_')
  }

  /** The number written by the digits of s, underscores skipped. */
  function DigitsValue(s: string): nat
    decreases |s|
  {
    if s == [] then 0
    else if IsDigit(s[|s| - 1]) then DigitsValue(s[..|s| - 1]) * 10 + DigitValue(s[|s| - 1])
    else DigitsValue(s[..|s| - 1])
  }

  /** The whitespace `int()` skips around a number in ASCII text: tab through carriage return
      and the space. Unlike `str.isspace()`, the separator controls 0x1C..0x1F are not in it. */
  predicate IsIntSpace(c: char) {
    c == ' ' || ('\t' <= c <= '\r')
  }

  /** `s` with its leading and trailing `int()` whitespace removed. */
  function IntStrip(s: string): (r: string)
    ensures |r| <= |s|
    ensures r == [] || (!IsIntSpace(r[0]) && !IsIntSpace(r[|r| - 1]))
    ensures r == [] <==> All(s, IsIntSpace)
  {
    var a := Span(s, 0, IsIntSpace);
    s[a..SpanBack(s, |s|, a, IsIntSpace)]
  }

  /** Python's `int(s)` for ASCII text: surrounding whitespace, an optional sign, and digit groups;
      None where Python raises ValueError. */
  function ParseInt(s: string): (r: Option<int>)
  {
    var t := IntStrip(s);
    if |t| > 0 && (t[0] == '+' || t[0] == '-') then
      var body := t[1..];
      if IsDigitGroups(body) then
        var v: int := DigitsValue(body);
        Some(if t[0] == '-' then -v else v)
      else None
    else if IsDigitGroups(t) then
      Some(DigitsValue(t))
    else None
  }

  /** Python's `str(n)` for a natural number. */
  function Show(n: nat): (s: string)
    ensures |s| > 0 && All(s, IsDigit)
    decreases n
  {
    if n < 10 then [DigitChar(n)] else Show(n / 10) + [DigitChar(n % 10)]
  }

  lemma {:induction false} ShowValue(n: nat)
    ensures DigitsValue(Show(n)) == n
    decreases n
  {
    if n < 10 {
      assert Show(n)[..0] == [];
    } else {
      ShowValue(n / 10);
      assert Show(n)[..|Show(n)| - 1] == Show(n / 10);
    }
  }

  /** `int(str(n)) == n`. */
  lemma ParseIntShow(n: nat)
    ensures ParseInt(Show(n)) == Some(n)
  {
    ParseIntPadded(n, [], []);
    assert [] + Show(n) + [] == Show(n);
  }

  /** `int()` accepts the digits of n between any runs of its whitespace. */
  lemma ParseIntPadded(n: nat, w: string, w': string)
    requires All(w, IsIntSpace) && All(w', IsIntSpace)
    ensures ParseInt(w + Show(n) + w') == Some(n)
  {
    IntStripPadded(w, Show(n), w');
    ShowValue(n);
  }

  /** Stripping runs of `int()` whitespace off both sides of d gives d, when d neither starts
      nor ends with such whitespace. */
  lemma IntStripPadded(w: string, d: string, w': string)
    requires All(w, IsIntSpace) && All(w', IsIntSpace)
    requires |d| > 0 && !IsIntSpace(d[0]) && !IsIntSpace(d[|d| - 1])
    ensures IntStrip(w + d + w') == d
  {
    var x := d + w';
    var s := w + x;
    assert w + d + w' == s;
    assert forall k :: |w| <= k < |s| ==> s[k] == x[k - |w|];
    assert forall k :: 0 <= k < |w| ==> s[k] == w[k];
    SpanExact(s, 0, |w|, IsIntSpace);
    assert forall k :: |w| + |d| <= k < |s| ==> s[k] == w'[k - |w| - |d|];
    SpanBackExact(s, |s|, |w|, |w| + |d|, IsIntSpace);
    assert s[|w|..|w| + |d|] == d;
  }

  /** A separator control before the digits makes `int()` raise, although `str.strip()` would
      remove it. */
  lemma ParseIntSeparatorControl(n: nat)
    ensures ParseInt(['\U{1C}'] + Show(n)) == None
    ensures Strip(['\U{1C}'] + Show(n)) == Show(n)
  {
    SeparatorBeforeDigits(Show(n));
  }

  lemma SeparatorBeforeDigits(d: string)
    requires |d| > 0 && All(d, IsDigit)
    ensures ParseInt(['\U{1C}'] + d) == None
    ensures Strip(['\U{1C}'] + d) == d
  {
    IntKeepsSeparator(['\U{1C}'] + d);
    StripLeadingSpace('\U{1C}', d);
  }

  /** `int()` rejects text that starts with a character that is neither its whitespace, a
      sign nor a digit. */
  lemma IntKeepsSeparator(s: string)
    requires |s| > 0 && !IsIntSpace(s[0]) && !IsDigit(s[0]) && s[0] != '+' && s[0] != '-'
    requires !IsIntSpace(s[|s| - 1])
    ensures ParseInt(s) == None
  {
    IntStripPadded([], s, []);
    assert [] + s + [] == s;
  }

  /** One leading whitespace character before text that has none at its ends is stripped. */
  lemma StripLeadingSpace(c: char, d: string)
    requires IsSpace(c)
    requires |d| > 0 && !IsSpace(d[0]) && !IsSpace(d[|d| - 1])
    ensures Strip([c] + d) == d
  {
    var s := [c] + d;
    assert forall k :: 1 <= k < |s| ==> s[k] == d[k - 1];
    SpanExact(s, 0, 1, IsSpace);
    SpanBackExact(s, |s|, 1, |s|, IsSpace);
    assert s[1..] == d;
  }
}
