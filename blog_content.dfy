/**
 * The markdown utilities of the blog: reading-time estimate, heading extraction
 * (with the slug ids the table of contents links to) and the plain-text preview.
 *
 * The two regular expressions that matter are decoded by hand:
 *  - `split(/\s+/)` cuts at every maximal whitespace run;
 *  - `/^(#{1,6})\s+(.+)$/gm` is `MatchAt` below, with its backtracking spelled out.
 */
module BlogContent {
  import opened Wrappers
  import opened Numbers
  import opened Seqs
  import opened Text

  /** The end of the longest run of characters satisfying `p` that starts at `k`. */
  function Span(s: string, k: nat, p: char -> bool): (e: nat)
    requires k <= |s|
    ensures k <= e <= |s|
    ensures forall i :: k <= i < e ==> p(s[i])
    ensures e == |s| || !p(s[e])
    decreases |s| - k
  {
    if k == |s| || !p(s[k]) then k else Span(s, k + 1, p)
  }

  function IsWs(c: char): bool { IsWhitespace(c) }

  // ---------------------------------------------------------------------------
  // calculateReadingTime

  const WordsPerMinute := 200

  /** `s.split(/\s+/)`: the pieces between maximal whitespace runs; `""` gives `[""]`. */
  function SplitWs(s: string): (r: seq<string>)
    ensures |r| >= 1
    ensures forall i, j :: 0 <= i < |r| && 0 <= j < |r[i]| ==> !IsWhitespace(r[i][j])
    ensures forall i :: 0 < i < |r| - 1 ==> r[i] != ""
    ensures s != [] && !IsWhitespace(s[0]) ==> r[0] != ""
    decreases |s|
  {
    if s == [] then [""]
    else if IsWhitespace(s[0]) then [""] + SplitWs(TrimStart(s))
    else
      var rest := SplitWs(s[1..]);
      [[s[0]] + rest[0]] + rest[1..]
  }

  /** Position `i` begins a maximal run of characters satisfying `p`. */
  predicate IsRunStart(s: string, i: int, p: char -> bool)
    requires 0 <= i < |s|
  {
    p(s[i]) && (i == 0 || !p(s[i - 1]))
  }

  /** The number of `p`-runs that begin at or after `k`. */
  function RunStartsFrom(s: string, k: nat, p: char -> bool): nat
    requires k <= |s|
    decreases |s| - k
  {
    if k == |s| then 0 else (if IsRunStart(s, k, p) then 1 else 0) + RunStartsFrom(s, k + 1, p)
  }

  lemma {:induction false} RunInteriorNotStarts(s: string, a: nat, b: nat, p: char -> bool)
    requires 0 < a <= b <= |s|
    requires forall i :: a - 1 <= i < b ==> p(s[i])
    ensures RunStartsFrom(s, a, p) == RunStartsFrom(s, b, p)
    decreases b - a
  {
    if a < b {
      RunInteriorNotStarts(s, a + 1, b, p);
    }
  }

  /** Splitting yields one piece more than there are whitespace runs. */
  lemma {:induction false} SplitCountsRuns(s: string, k: nat)
    requires k <= |s|
    requires k == 0 || k == |s| || !IsWhitespace(s[k - 1]) || !IsWhitespace(s[k])
    ensures |SplitWs(s[k..])| == 1 + RunStartsFrom(s, k, IsWs)
    decreases |s| - k
  {
    var t := s[k..];
    if k == |s| {
      assert t == [];
    } else if !IsWhitespace(s[k]) {
      assert t[1..] == s[k + 1..];
      SplitCountsRuns(s, k + 1);
    } else {
      var u := TrimStart(t);
      var j := k + (|t| - |u|);
      assert u == s[j..];
      assert j > k;
      forall i | k <= i < j
        ensures IsWhitespace(s[i])
      {
        assert s[i] == t[i - k];
      }
      RunInteriorNotStarts(s, k + 1, j, IsWs);
      SplitCountsRuns(s, j);
    }
  }

  /** `content.split(/\s+/).length`: one more than the number of whitespace runs. */
  function WordCount(content: string): (n: nat)
    ensures n == 1 + RunStartsFrom(content, 0, IsWs)
  {
    SplitCountsRuns(content, 0);
    assert content[0..] == content;
    |SplitWs(content)|
  }

  /** `calculateReadingTime`: `max(1, ceil(words / 200))` minutes. */
  function CalculateReadingTime(content: string): (minutes: int)
    ensures minutes >= 1
    ensures minutes * WordsPerMinute >= WordCount(content)
    ensures minutes == 1 || (minutes - 1) * WordsPerMinute < WordCount(content)
  {
    Max(1, CeilDiv(WordCount(content), WordsPerMinute))
  }

  /** Up to 200 words read in one minute, and each further started block of 200 adds one. */
  lemma ReadingTimeSteps(content: string, m: int)
    requires m >= 1
    requires (m - 1) * WordsPerMinute < WordCount(content) <= m * WordsPerMinute
    ensures CalculateReadingTime(content) == m
  {
  }

  // ---------------------------------------------------------------------------
  // extractHeadings

  /** The slug alphabet `[a-z0-9]` kept by `replace(/[^a-z0-9]+/g, '-')`. */
  function IsSlugChar(c: char): bool { 'a' <= c <= 'z' || '0' <= c <= '9' }

  function NotSlugChar(c: char): bool { !IsSlugChar(c) }

  predicate NoDoubleDash(s: string) {
    forall i :: 0 <= i < |s| - 1 ==> !(s[i] == '-' && s[i + 1] == '-')
  }

  /** What a heading id may look like: `[a-z0-9-]` only, no `--`, no `-` at either end. */
  predicate IsSlug(s: string) {
    && (forall i :: 0 <= i < |s| ==> IsSlugChar(s[i]) || s[i] == '-')
    && NoDoubleDash(s)
    && (s == [] || (s[0] != '-' && s[|s| - 1] != '-'))
  }

  /** `replace(/[^a-z0-9]+/g, '-')` on `s[k..]`: each maximal run outside the alphabet becomes one `-`. */
  function CollapseFrom(s: string, k: nat): (r: string)
    requires k <= |s|
    ensures forall i :: 0 <= i < |r| ==> IsSlugChar(r[i]) || r[i] == '-'
    ensures NoDoubleDash(r)
    ensures r == [] <==> k == |s|
    ensures r != [] ==> (r[0] == '-' <==> !IsSlugChar(s[k]))
    decreases |s| - k
  {
    if k == |s| then ""
    else if IsSlugChar(s[k]) then [s[k]] + CollapseFrom(s, k + 1)
    else "-" + CollapseFrom(s, Span(s, k, NotSlugChar))
  }

  /** Collapsing keeps every letter and digit, in order. */
  lemma {:induction false} CollapseKeepsAlnum(s: string, k: nat)
    requires k <= |s|
    ensures Filter(IsSlugChar, CollapseFrom(s, k)) == Filter(IsSlugChar, s[k..])
    decreases |s| - k
  {
    if k < |s| {
      if IsSlugChar(s[k]) {
        CollapseKeepsAlnum(s, k + 1);
        assert s[k..] == [s[k]] + s[k + 1..];
        FilterConsSlugChar(s[k], s[k + 1..]);
        FilterConsSlugChar(s[k], CollapseFrom(s, k + 1));
      } else {
        var e := Span(s, k, NotSlugChar);
        CollapseKeepsAlnum(s, e);
        FilterSkipRun(s, k, e);
        var c := CollapseFrom(s, e);
        assert ("-" + c)[1..] == c;
        FilterDropFirstDash("-" + c);
      }
    }
  }

  lemma FilterConsSlugChar(c: char, x: string)
    requires IsSlugChar(c)
    ensures Filter(IsSlugChar, [c] + x) == [c] + Filter(IsSlugChar, x)
  {
    assert ([c] + x)[1..] == x;
  }

  /** A run without letters and digits contributes nothing to the filter. */
  lemma FilterSkipRun(s: string, k: nat, e: nat)
    requires k <= e <= |s|
    requires forall i :: k <= i < e ==> !IsSlugChar(s[i])
    ensures Filter(IsSlugChar, s[k..]) == Filter(IsSlugChar, s[e..])
  {
    assert s[k..] == s[k..e] + s[e..];
    FilterAppend(IsSlugChar, s[k..e], s[e..]);
    FilterNone(IsSlugChar, s[k..e]);
  }

  /** `replace(/^-|-$/g, '')`: drops one leading and one trailing `-`. */
  function StripDashEnds(s: string): (r: string)
    ensures exists lo, hi :: 0 <= lo <= hi <= |s| && r == s[lo..hi]
                            && (forall i :: 0 <= i < lo ==> s[i] == '-')
                            && (forall i :: hi <= i < |s| ==> s[i] == '-')
    ensures NoDoubleDash(s) ==> r == [] || (r[0] != '-' && r[|r| - 1] != '-')
  {
    var a := if |s| > 0 && s[0] == '-' then s[1..] else s;
    var r := if |a| > 0 && a[|a| - 1] == '-' then a[..|a| - 1] else a;
    var lo := |s| - |a|;
    assert a == s[lo..];
    assert r == s[lo..lo + |r|];
    r
  }

  /** A `-` in front is not a letter or digit. */
  lemma FilterDropFirstDash(x: string)
    requires x != [] && x[0] == '-'
    ensures Filter(IsSlugChar, x) == Filter(IsSlugChar, x[1..])
  {
  }

  /** A `-` at the end is not a letter or digit. */
  lemma FilterDropLastDash(x: string)
    requires x != [] && x[|x| - 1] == '-'
    ensures Filter(IsSlugChar, x) == Filter(IsSlugChar, x[..|x| - 1])
  {
    assert x == x[..|x| - 1] + "-";
    FilterAppend(IsSlugChar, x[..|x| - 1], "-");
    FilterNone(IsSlugChar, "-");
  }

  /** Removing `-` at the ends keeps every letter and digit. */
  lemma StripDashEndsKeepsAlnum(s: string)
    ensures Filter(IsSlugChar, StripDashEnds(s)) == Filter(IsSlugChar, s)
  {
    var a := if |s| > 0 && s[0] == '-' then s[1..] else s;
    if |s| > 0 && s[0] == '-' {
      FilterDropFirstDash(s);
    }
    if |a| > 0 && a[|a| - 1] == '-' {
      FilterDropLastDash(a);
    }
  }

  /** Removing `-` at the ends of a string of slug characters without `--` leaves a slug. */
  lemma StripDashEndsIsSlug(c: string)
    requires forall i :: 0 <= i < |c| ==> IsSlugChar(c[i]) || c[i] == '-'
    requires NoDoubleDash(c)
    ensures IsSlug(StripDashEnds(c))
  {
    var id := StripDashEnds(c);
    var lo, hi :| 0 <= lo <= hi <= |c| && id == c[lo..hi];
    assert forall i :: 0 <= i < |id| ==> id[i] == c[lo + i];
  }

  /** The heading id: `text.toLowerCase().replace(/[^a-z0-9]+/g, '-').replace(/^-|-$/g, '')`. */
  function SlugId(text: string): (id: string)
    ensures IsSlug(id)
    ensures Filter(IsSlugChar, id) == Filter(IsSlugChar, Lower(text))
  {
    var c := CollapseFrom(Lower(text), 0);
    StripDashEndsIsSlug(c);
    CollapseKeepsAlnum(Lower(text), 0);
    assert Lower(text)[0..] == Lower(text);
    StripDashEndsKeepsAlnum(c);
    StripDashEnds(c)
  }

  /** An id that is already a slug collapses to itself. */
  lemma {:induction false} CollapseOfSlug(s: string, k: nat)
    requires k <= |s|
    requires forall i :: 0 <= i < |s| ==> IsSlugChar(s[i]) || s[i] == '-'
    requires NoDoubleDash(s)
    ensures CollapseFrom(s, k) == s[k..]
    decreases |s| - k
  {
    if k < |s| {
      CollapseOfSlug(s, k + 1);
      if !IsSlugChar(s[k]) {
        assert Span(s, k, NotSlugChar) == k + 1 by {
          assert k + 1 == |s| || s[k + 1] != '-';
        }
      }
      assert s[k..] == [s[k]] + s[k + 1..];
    }
  }

  /** A slug has no upper-case letter. */
  lemma LowerOfSlug(s: string)
    requires IsSlug(s)
    ensures Lower(s) == s
  {
  }

  /** A slug has no `-` at either end to remove. */
  lemma StripDashEndsOfSlug(s: string)
    requires IsSlug(s)
    ensures StripDashEnds(s) == s
  {
  }

  /** Generating an id from an id changes nothing. */
  lemma SlugIdIdempotent(text: string)
    ensures SlugId(SlugId(text)) == SlugId(text)
  {
    var id := SlugId(text);
    LowerOfSlug(id);
    CollapseOfSlug(id, 0);
    assert id[0..] == id;
    StripDashEndsOfSlug(id);
  }

  function IsHash(c: char): bool { c == '#' }

  function NotLineTerminator(c: char): bool { !IsLineTerminator(c) }

  /** `^` under the `m` flag. */
  predicate IsLineStart(s: string, p: nat)
    requires p <= |s|
  {
    p == 0 || IsLineTerminator(s[p - 1])
  }

  /** The largest `j` in `[1, k]` with `s[q + j]` not a line terminator, or 0 when there is none. */
  function LastNonTerminator(s: string, q: nat, k: nat): (j: nat)
    requires q + k < |s|
    ensures j <= k
    ensures j >= 1 ==> !IsLineTerminator(s[q + j])
    ensures forall i :: q + j < i <= q + k ==> IsLineTerminator(s[i])
    decreases k
  {
    if k == 0 then 0
    else if !IsLineTerminator(s[q + k]) then k
    else LastNonTerminator(s, q, k - 1)
  }

  /** One match of the heading pattern: the hashes start at `start`, group 2 is `s[textStart..textEnd]`. */
  datatype HeadingMatch = HeadingMatch(start: nat, level: nat, textStart: nat, textEnd: nat)

  /**
   * `/^(#{1,6})\s+(.+)$/m` tried at position `p`. The hash run must be whole (a seventh `#`
   * is not whitespace) and followed by whitespace; `\s+` is greedy and may cross line breaks.
   * When the whitespace reaches the end of the input, `\s+` gives back characters until `(.+)`
   * can take a single one that is not a line terminator.
   */
  function MatchAt(s: string, p: nat): (m: Option<HeadingMatch>)
    requires p <= |s|
    ensures m.Some? ==> var h := m.value;
      h.start == p && 1 <= h.level <= 6 && p + h.level < h.textStart < h.textEnd <= |s|
  {
    if !IsLineStart(s, p) then None
    else
      var q := Span(s, p, IsHash);
      var level := q - p;
      if level < 1 || level > 6 || q == |s| || !IsWhitespace(s[q]) then None
      else
        var e := Span(s, q, IsWs);
        if e < |s| then
          Some(HeadingMatch(p, level, e, Span(s, e, NotLineTerminator)))
        else
          var k := LastNonTerminator(s, q, e - q - 1);
          if k == 0 then None else Some(HeadingMatch(p, level, q + k, q + k + 1))
  }

  /**
   * What a match at `p` consists of: a line start, one to six `#`, whitespace, then group 2,
   * a non-empty run without line terminators that reaches the end of its line.
   */
  lemma MatchAtShape(s: string, p: nat)
    requires p <= |s| && MatchAt(s, p).Some?
    ensures var h := MatchAt(s, p).value;
      && IsLineStart(s, p)
      && (forall i :: p <= i < p + h.level ==> s[i] == '#')
      && (forall i :: p + h.level <= i < h.textStart ==> IsWhitespace(s[i]))
      && (forall i :: h.textStart <= i < h.textEnd ==> !IsLineTerminator(s[i]))
      && (h.textEnd == |s| || IsLineTerminator(s[h.textEnd]))
  {
  }

  /** The level is the full count of leading `#`. */
  lemma LevelIsHashCount(s: string, p: nat)
    requires p <= |s| && MatchAt(s, p).Some?
    ensures var m := MatchAt(s, p).value;
            m.level == Span(s, p, IsHash) - p && (p + m.level == |s| || s[p + m.level] != '#')
  {
  }

  /** A line opening with seven or more `#` is not a heading. */
  lemma SevenHashesNoHeading(s: string, p: nat)
    requires p + 7 <= |s|
    requires forall i :: p <= i < p + 7 ==> s[i] == '#'
    ensures MatchAt(s, p) == None
  {
  }

  /** `\s+` may run over a line break: `"#\nfoo"` is a level-1 heading with text `"foo"`. */
  lemma NewlineSeparatorExample()
    ensures MatchAt("#\nfoo", 0) == Some(HeadingMatch(0, 1, 2, 5))
  {
    var s := "#\nfoo";
    assert Span(s, 5, NotLineTerminator) == 5;
    assert Span(s, 2, NotLineTerminator) == 5;
    assert Span(s, 2, IsWs) == 2;
    assert Span(s, 1, IsWs) == 2;
    assert Span(s, 1, IsHash) == 1;
    assert Span(s, 0, IsHash) == 1;
  }

  /** The bounds of a match found at or after `from`: enough to take its text and to move past it. */
  predicate Placed(s: string, from: nat, h: HeadingMatch) {
    from <= h.start && 1 <= h.level <= 6 && h.start < h.textStart < h.textEnd <= |s|
  }

  /** `headingRegex.exec(content)` with `lastIndex == from`: the first match at or after `from`. */
  function FindMatch(s: string, from: nat): (m: Option<HeadingMatch>)
    requires from <= |s|
    ensures m.Some? ==> Placed(s, from, m.value)
    decreases |s| - from
  {
    match MatchAt(s, from)
    case Some(h) => Some(h)
    case None => if from == |s| then None else FindMatch(s, from + 1)
  }

  /** The pattern matches at no position in `[a, b)`. */
  ghost predicate NoMatchIn(s: string, a: nat, b: nat)
    requires b <= |s| + 1
  {
    forall p :: a <= p < b ==> MatchAt(s, p).None?
  }

  lemma NoMatchGrow(s: string, a: nat, b: nat)
    requires a < b <= |s| + 1 && MatchAt(s, a).None? && NoMatchIn(s, a + 1, b)
    ensures NoMatchIn(s, a, b)
  {
  }

  /** What `exec` returns is a match of the pattern at its start. */
  lemma {:induction false} FindMatchFound(s: string, from: nat)
    requires from <= |s| && FindMatch(s, from).Some?
    ensures FindMatch(s, from).value.start <= |s|
    ensures MatchAt(s, FindMatch(s, from).value.start) == FindMatch(s, from)
    decreases |s| - from
  {
    if MatchAt(s, from).None? {
      FindMatchFound(s, from + 1);
    }
  }

  /** `exec` returns the first position at or after `from` where the pattern matches, and nothing when there is none. */
  lemma {:induction false} FindMatchIsFirst(s: string, from: nat)
    requires from <= |s|
    ensures FindMatch(s, from).Some? ==> NoMatchIn(s, from, FindMatch(s, from).value.start)
    ensures FindMatch(s, from).None? ==> NoMatchIn(s, from, |s| + 1)
    decreases |s| - from
  {
    if MatchAt(s, from).None? && from < |s| {
      FindMatchIsFirst(s, from + 1);
      var m := FindMatch(s, from + 1);
      if m.Some? {
        NoMatchGrow(s, from, m.value.start);
      } else {
        NoMatchGrow(s, from, |s| + 1);
      }
    }
  }

  /** All matches the `g` loop visits from `from` on, each starting at the previous one's end. */
  function Matches(s: string, from: nat): (ms: seq<HeadingMatch>)
    requires from <= |s|
    ensures forall i :: 0 <= i < |ms| ==> Placed(s, from, ms[i])
    ensures forall i :: 0 <= i < |ms| - 1 ==> ms[i].textEnd <= ms[i + 1].start
    decreases |s| - from
  {
    match FindMatch(s, from)
    case None => []
    case Some(m) =>
      var rest := Matches(s, m.textEnd);
      var ms := [m] + rest;
      assert forall i :: 0 < i < |ms| ==> ms[i] == rest[i - 1];
      ms
  }

  /** Every element of the match list is a match of the pattern at its start. */
  lemma {:induction false} MatchesAreMatches(s: string, from: nat)
    requires from <= |s|
    ensures forall i :: 0 <= i < |Matches(s, from)| ==>
              Matches(s, from)[i].start <= |s| && MatchAt(s, Matches(s, from)[i].start) == Some(Matches(s, from)[i])
    decreases |s| - from
  {
    var found := FindMatch(s, from);
    if found.Some? {
      var m := found.value;
      FindMatchFound(s, from);
      MatchesAreMatches(s, m.textEnd);
      var ms := Matches(s, from);
      assert forall i :: 0 < i < |ms| ==> ms[i] == Matches(s, m.textEnd)[i - 1];
    }
  }

  datatype Heading = Heading(level: int, text: string, id: string)

  /** The heading pushed for one match: group 1's length, group 2 trimmed, and its slug. */
  function ToHeading(s: string, m: HeadingMatch): Heading
    requires m.textStart <= m.textEnd <= |s|
  {
    var text := Trim(s[m.textStart..m.textEnd]);
    Heading(m.level, text, SlugId(text))
  }

  /** The heading of a match keeps its level, has trimmed text, and an id that is the slug of that text. */
  lemma ToHeadingWellFormed(s: string, m: HeadingMatch)
    requires m.textStart <= m.textEnd <= |s|
    ensures var h := ToHeading(s, m);
            h.level == m.level && IsTrimmed(h.text) && IsSlug(h.id) && h.id == SlugId(h.text)
  {
  }

  /** The headings pushed by the `exec` loop from `from` on: one per match, in document order. */
  function HeadingsFrom(s: string, from: nat): seq<Heading>
    requires from <= |s|
    decreases |s| - from
  {
    match FindMatch(s, from)
    case None => []
    case Some(m) => [ToHeading(s, m)] + HeadingsFrom(s, m.textEnd)
  }

  /** The headings are the matches, each turned into a heading. */
  lemma {:induction false} HeadingsFromMatches(s: string, from: nat)
    requires from <= |s|
    ensures |HeadingsFrom(s, from)| == |Matches(s, from)|
    ensures forall j :: 0 <= j < |Matches(s, from)| ==> HeadingsFrom(s, from)[j] == ToHeading(s, Matches(s, from)[j])
    decreases |s| - from
  {
    var found := FindMatch(s, from);
    if found.Some? {
      var m := found.value;
      HeadingsFromMatches(s, m.textEnd);
      var hs := HeadingsFrom(s, from);
      var ms := Matches(s, from);
      assert hs == [ToHeading(s, m)] + HeadingsFrom(s, m.textEnd);
      assert ms == [m] + Matches(s, m.textEnd);
      forall j | 0 <= j < |ms| ensures hs[j] == ToHeading(s, ms[j]) {
        if j > 0 {
          assert hs[j] == HeadingsFrom(s, m.textEnd)[j - 1];
          assert ms[j] == Matches(s, m.textEnd)[j - 1];
        }
      }
    }
  }

  /** A level in 1..6, trimmed text, and a well-formed id. */
  predicate WellFormedHeading(h: Heading) {
    1 <= h.level <= 6 && IsTrimmed(h.text) && IsSlug(h.id)
  }

  /** Every heading found is well formed. */
  lemma {:induction false} HeadingsWellFormed(s: string, from: nat)
    requires from <= |s|
    ensures forall j :: 0 <= j < |HeadingsFrom(s, from)| ==> WellFormedHeading(HeadingsFrom(s, from)[j])
    decreases |s| - from
  {
    var found := FindMatch(s, from);
    if found.Some? {
      var m := found.value;
      HeadingsWellFormed(s, m.textEnd);
      ToHeadingWellFormed(s, m);
      assert WellFormedHeading(ToHeading(s, m));
      assert HeadingsFrom(s, from) == [ToHeading(s, m)] + HeadingsFrom(s, m.textEnd);
      WellFormedCons(ToHeading(s, m), HeadingsFrom(s, m.textEnd));
    }
  }

  lemma WellFormedCons(h: Heading, rest: seq<Heading>)
    requires WellFormedHeading(h)
    requires forall j :: 0 <= j < |rest| ==> WellFormedHeading(rest[j])
    ensures forall j :: 0 <= j < |[h] + rest| ==> WellFormedHeading(([h] + rest)[j])
  {
    forall j | 0 <= j < |[h] + rest|
      ensures WellFormedHeading(([h] + rest)[j])
    {
      if j > 0 {
        assert ([h] + rest)[j] == rest[j - 1];
      }
    }
  }

  /** `extractHeadings`: the `exec` loop, pushing one heading per match. */
  method ExtractHeadings(content: string) returns (headings: seq<Heading>)
    ensures headings == HeadingsFrom(content, 0)
  {
    headings := [];
    var lastIndex: nat := 0;
    var found := FindMatch(content, lastIndex);
    while found.Some?
      invariant lastIndex <= |content|
      invariant found == FindMatch(content, lastIndex)
      invariant headings + HeadingsFrom(content, lastIndex) == HeadingsFrom(content, 0)
      decreases |content| - lastIndex
    {
      var m := found.value;
      var h := ToHeading(content, m);
      assert HeadingsFrom(content, lastIndex) == [h] + HeadingsFrom(content, m.textEnd);
      AppendAssoc(headings, [h], HeadingsFrom(content, m.textEnd));
      headings := headings + [h];
      lastIndex := m.textEnd;
      found := FindMatch(content, lastIndex);
    }
    assert headings + [] == headings;
  }

  // ---------------------------------------------------------------------------
  // extractContentPreview

  const DefaultPreviewLength := 300

  function IsNewline(c: char): bool { c == '\n' }

  /** Neither a line feed nor a space: what `replace(/\n+/g, ' ')` never adds or removes. */
  function IsVisible(c: char): bool { c != '\n' && c != ' ' }

  /** `replace(/\n+/g, ' ')` on `s[k..]`: each run of line feeds becomes one space. */
  function CollapseNewlinesFrom(s: string, k: nat): (r: string)
    requires k <= |s|
    ensures |r| <= |s| - k
    ensures '\n' !in r
    decreases |s| - k
  {
    if k == |s| then ""
    else if s[k] == '\n' then " " + CollapseNewlinesFrom(s, Span(s, k, IsNewline))
    else [s[k]] + CollapseNewlinesFrom(s, k + 1)
  }

  function CollapseNewlines(s: string): string
  {
    CollapseNewlinesFrom(s, 0)
  }

  /** Text without line feeds passes through unchanged. */
  lemma {:induction false} CollapseWithoutNewlines(s: string, k: nat)
    requires k <= |s|
    requires forall i :: k <= i < |s| ==> s[i] != '\n'
    ensures CollapseNewlinesFrom(s, k) == s[k..]
    decreases |s| - k
  {
    if k < |s| {
      CollapseWithoutNewlines(s, k + 1);
      assert s[k..] == [s[k]] + s[k + 1..];
    }
  }

  /** Collapsing only trades line feeds for spaces: all other characters survive, in order. */
  lemma {:induction false} CollapseKeepsVisible(s: string, k: nat)
    requires k <= |s|
    ensures Filter(IsVisible, CollapseNewlinesFrom(s, k)) == Filter(IsVisible, s[k..])
    decreases |s| - k
  {
    if k < |s| {
      if s[k] == '\n' {
        var e := Span(s, k, IsNewline);
        CollapseKeepsVisible(s, e);
        assert s[k..] == s[k..e] + s[e..];
        FilterAppend(IsVisible, s[k..e], s[e..]);
        FilterNone(IsVisible, s[k..e]);
        FilterAppend(IsVisible, " ", CollapseNewlinesFrom(s, e));
        FilterNone(IsVisible, " ");
      } else {
        CollapseKeepsVisible(s, k + 1);
        assert s[k..] == [s[k]] + s[k + 1..];
        FilterAppend(IsVisible, [s[k]], s[k + 1..]);
        FilterAppend(IsVisible, [s[k]], CollapseNewlinesFrom(s, k + 1));
      }
    }
  }

  /**
   * Each run of line feeds becomes exactly one space: the output has the input's spaces
   * plus one per line-feed run. `k` must not sit inside a run that began before it.
   */
  lemma {:induction false} CollapseCountsRuns(s: string, k: nat)
    requires k <= |s|
    requires k == 0 || k == |s| || s[k - 1] != '\n' || s[k] != '\n'
    ensures multiset(CollapseNewlinesFrom(s, k))[' '] == multiset(s[k..])[' '] + RunStartsFrom(s, k, IsNewline)
    decreases |s| - k
  {
    if k < |s| {
      if s[k] == '\n' {
        var e := Span(s, k, IsNewline);
        CollapseCountsRuns(s, e);
        CollapseRunStep(s, k, e);
      } else {
        CollapseCountsRuns(s, k + 1);
        CollapseCharStep(s, k);
      }
    }
  }

  /** A line-feed run at `k` becomes one space and counts as one run. */
  lemma CollapseRunStep(s: string, k: nat, e: nat)
    requires k < |s| && s[k] == '\n' && (k == 0 || s[k - 1] != '\n')
    requires e == Span(s, k, IsNewline)
    requires multiset(CollapseNewlinesFrom(s, e))[' '] == multiset(s[e..])[' '] + RunStartsFrom(s, e, IsNewline)
    ensures multiset(CollapseNewlinesFrom(s, k))[' '] == multiset(s[k..])[' '] + RunStartsFrom(s, k, IsNewline)
  {
    var tail := CollapseNewlinesFrom(s, e);
    assert CollapseNewlinesFrom(s, k) == [' '] + tail;
    SpacesCons(' ', tail);
    NoSpacesInRun(s, k, e);
    OneRunStart(s, k, e);
  }

  /** A maximal line-feed run starting at `k` counts once. */
  lemma OneRunStart(s: string, k: nat, e: nat)
    requires k < |s| && s[k] == '\n' && (k == 0 || s[k - 1] != '\n')
    requires e == Span(s, k, IsNewline)
    ensures RunStartsFrom(s, k, IsNewline) == 1 + RunStartsFrom(s, e, IsNewline)
  {
    assert IsRunStart(s, k, IsNewline);
    if k + 1 < e {
      RunInteriorNotStarts(s, k + 1, e, IsNewline);
    }
  }

  /** Any other character is copied and starts no run. */
  lemma CollapseCharStep(s: string, k: nat)
    requires k < |s| && s[k] != '\n'
    requires multiset(CollapseNewlinesFrom(s, k + 1))[' '] == multiset(s[k + 1..])[' '] + RunStartsFrom(s, k + 1, IsNewline)
    ensures multiset(CollapseNewlinesFrom(s, k))[' '] == multiset(s[k..])[' '] + RunStartsFrom(s, k, IsNewline)
  {
    var tail := CollapseNewlinesFrom(s, k + 1);
    assert CollapseNewlinesFrom(s, k) == [s[k]] + tail;
    SpacesCons(s[k], tail);
    SpacesOfSuffix(s, k);
    assert !IsRunStart(s, k, IsNewline);
  }

  /** Spaces in a sequence with one more character in front. */
  lemma SpacesCons(c: char, x: string)
    ensures multiset([c] + x)[' '] == (if c == ' ' then 1 else 0) + multiset(x)[' ']
  {
  }

  lemma SpacesOfSuffix(s: string, k: nat)
    requires k < |s|
    ensures multiset(s[k..])[' '] == (if s[k] == ' ' then 1 else 0) + multiset(s[k + 1..])[' ']
  {
    assert s[k..] == [s[k]] + s[k + 1..];
    SpacesCons(s[k], s[k + 1..]);
  }

  /** A run of line feeds adds no spaces. */
  lemma NoSpacesInRun(s: string, a: nat, e: nat)
    requires a <= e <= |s|
    requires forall i :: a <= i < e ==> s[i] == '\n'
    ensures multiset(s[a..])[' '] == multiset(s[e..])[' ']
  {
    assert s[a..] == s[a..e] + s[e..];
    assert ' ' !in s[a..e];
  }

  /** Collapsing twice is collapsing once. */
  lemma CollapseNewlinesIdempotent(s: string)
    ensures CollapseNewlines(CollapseNewlines(s)) == CollapseNewlines(s)
  {
    var c := CollapseNewlines(s);
    CollapseWithoutNewlines(c, 0);
    assert c[0..] == c;
  }

  /** The stripped text with line feeds collapsed and trimmed: what gets truncated. */
  function Collapsed(strip: string -> string, content: string): (c: string)
    ensures IsTrimmed(c)
    ensures '\n' !in c
  {
    var t := CollapseNewlines(strip(content));
    var c := Trim(t);
    TrimIsInfix(t);
    c
  }

  /**
   * `preview.substring(0, n).trim() + '...'` for `n` within the text: the part before the
   * dots is `c[lo..hi]`, where only whitespace lies in `c[..lo]` and in `c[hi..n]`.
   */
  function Truncated(c: string, n: nat): (r: string)
    requires n <= |c|
    requires '\n' !in c
    ensures 3 <= |r| <= n + 3 && r[|r| - 3..] == "..."
    ensures IsTrimmed(r[..|r| - 3]) && IsInfix(r[..|r| - 3], c[..n])
    ensures exists lo, hi ::
              && 0 <= lo <= hi <= n && r[..|r| - 3] == c[lo..hi]
              && (forall i :: 0 <= i < lo ==> IsWhitespace(c[i]))
              && (forall i :: hi <= i < n ==> IsWhitespace(c[i]))
    ensures '\n' !in r
  {
    var head := c[..n];
    var body := Trim(head);
    TrimOfPrefix(c, n);
    TrimIsInfix(head);
    assert '\n' !in head;
    var r := body + "...";
    assert r[..|r| - 3] == body && r[|r| - 3..] == "...";
    r
  }

  /**
   * `extractContentPreview(content, maxLength = 300)`. The markdown stripping of headers,
   * code, emphasis and links is the parameter `strip`; `substring` clamps a negative length to 0.
   */
  function ExtractContentPreview(strip: string -> string, content: string, maxLength: Option<int>): (preview: string)
    ensures '\n' !in preview
    ensures var c := Collapsed(strip, content);
            |c| <= maxLength.GetOr(DefaultPreviewLength) ==> preview == c
    ensures var c := Collapsed(strip, content);
            var n := Max(0, maxLength.GetOr(DefaultPreviewLength));
            |c| > maxLength.GetOr(DefaultPreviewLength) ==>
              && 3 <= |preview| <= n + 3
              && preview[|preview| - 3..] == "..."
              && IsTrimmed(preview[..|preview| - 3])
              && IsInfix(preview[..|preview| - 3], c[..n])
              && preview == Trim(c[..n]) + "..."
  {
    var c := Collapsed(strip, content);
    var n := maxLength.GetOr(DefaultPreviewLength);
    if |c| > n then Truncated(c, Max(0, n)) else c
  }
}
