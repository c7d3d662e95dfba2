/**
 * The regular expressions of core/regex/rpy_patterns.py (and the two other
 * patterns the core compiles: the JSON `//` comment of json_fields.py and the
 * `old "..."` re-parse of extractor.py), each written as a recognizer that
 * returns the match Python's `re` engine reports at a given position.
 *
 * The string-literal grammar is the heart of it. STRING_PATTERN is the
 * alternation double | single | triple-double | triple-single, tried in that
 * order by a backtracking engine. `LiteralEnds` lists every end position the
 * engine can reach for a literal starting at a position, in the order it
 * tries them; a pattern takes the first end after which the rest of the
 * pattern also matches. Because the plain double-quoted alternative comes
 * first, `"""abc"""` is first seen as the empty literal `""`.
 */
module Patterns {
  import opened Wrappers
  import opened Text

  /** A match: the whole span [start, end) and the captured group's span [groupStart, groupEnd). */
  datatype Match = Match(start: nat, end: nat, groupStart: nat, groupEnd: nat)

  /** A non-empty match inside `s` whose group lies inside it. */
  predicate Fits(m: Match, s: string) {
    m.start < m.end <= |s| && m.start <= m.groupStart <= m.groupEnd <= m.end
  }

  /**
   * The patterns the core matches with `re.finditer`. For the property
   * shapes, `boundary` says whether the pattern starts with `\b`.
   */
  datatype Pattern =
    | StringLiteral                          // STRING_PATTERN; the group is the whole match
    | Assign(name: string, boundary: bool)   // [\b]name\s*=\s*((?:f)?STRING)
    | KeyValue(name: string)                 // ["']?name["']?[\s]*:[\s]*((?:f)?STRING)
    | Spaced(name: string, boundary: bool)   // [\b]name\s+((?:f)?STRING)
    | Notify                                 // renpy\.notify\s*\(\s*((?:f)?STRING)\s*\)
    | BlockComment                           // """[\s\S]*?"""|'''[\s\S]*?'''
    | LineComment                            // #.*?$ (multi-line mode)
    | SlashComment                           // //.*$ (multi-line mode)
    | OldEntry                               // old\s+(?:"([^"\\]*(?:\\.[^"\\]*)*)"|"""([\s\S]*?)""")

  /** `create_property_pattern(name)`: an equals-assignment guarded by a word boundary. */
  function CreatePropertyPattern(name: string): Pattern {
    Assign(name, true)
  }

  const DescriptionPattern := CreatePropertyPattern("description")
  const PurchaseNotificationPattern := CreatePropertyPattern("purchase_notification")
  const UnlockNotificationPattern := CreatePropertyPattern("unlock_notification")
  // The remaining module constants are written without `\b`.
  const TitleTextPattern := Assign("title_text", false)
  const DescriptionTextPattern := Assign("description_text", false)
  const NamePattern := Assign("name", false)
  const SponsorDescriptionPattern := Assign("sponsor_description", false)
  const TooltipPattern := Spaced("tooltip", false)
  const TextPattern := Spaced("text", false)
  const TextbuttonPattern := Spaced("textbutton", false)
  const RenpyNotifyPattern := Notify
  const MultilineCommentPattern := BlockComment
  const SingleLineCommentPattern := LineComment

  /** The comment patterns the `.rpy` rules skip, block comments first. */
  const CommentPatterns: seq<Pattern> := [MultilineCommentPattern, SingleLineCommentPattern]

  predicate IsQuote(c: char) { c == '"' || c == '\'' }

  /** Regex `\b` at index `i`: exactly one of the neighbouring characters is a word character. */
  predicate WordBoundary(s: string, i: nat) {
    (0 < i <= |s| && IsWordChar(s[i - 1])) != (i < |s| && IsWordChar(s[i]))
  }

  /** The position after the longest run of whitespace starting at `j` (greedy `\s*`). */
  function SkipSpaces(s: string, j: nat): (k: nat)
    requires j <= |s|
    ensures j <= k <= |s| && (k == |s| || !IsSpace(s[k]))
    decreases |s| - j
  {
    if j < |s| && IsSpace(s[j]) then SkipSpaces(s, j + 1) else j
  }

  /** `\s*` consumes whitespace only. */
  lemma {:induction false} SkipSpacesOnlySpaces(s: string, j: nat)
    requires j <= |s|
    ensures forall t :: j <= t < SkipSpaces(s, j) ==> IsSpace(s[t])
    decreases |s| - j
  {
    if j < |s| && IsSpace(s[j]) {
      SkipSpacesOnlySpaces(s, j + 1);
    }
  }

  /** The first index at or after `j` that is a newline or the end (`.*$` in multi-line mode). */
  function LineEnd(s: string, j: nat): (k: nat)
    requires j <= |s|
    ensures j <= k <= |s| && (k == |s| || s[k] == '\n')
    decreases |s| - j
  {
    if j < |s| && s[j] != '\n' then LineEnd(s, j + 1) else j
  }

  /** `.*` stops at the first newline: no newline lies before the end it finds. */
  lemma {:induction false} LineEndFirstNewline(s: string, j: nat)
    requires j <= |s|
    ensures forall t :: j <= t < LineEnd(s, j) ==> s[t] != '\n'
    decreases |s| - j
  {
    if j < |s| && s[j] != '\n' {
      LineEndFirstNewline(s, j + 1);
    }
  }

  /**
   * The ends of `q(?:\\q|[^q])*q` whose opening quote precedes `j`, in the
   * order the engine tries them: at each step first an escaped quote, then
   * any character other than `q`, and only then the closing quote. The
   * first end is the greedy one; the later ones are reached by backtracking
   * into an escaped quote and reading its backslash as an ordinary character.
   */
  function QuotedEnds(s: string, q: char, j: nat): (r: seq<nat>)
    requires q != '\\'
    ensures forall k :: 0 <= k < |r| ==> j < r[k] <= |s| && s[r[k] - 1] == q
    decreases |s| - j
  {
    if j >= |s| then []
    else if s[j] == q then [j + 1]
    else if s[j] == '\\' && j + 1 < |s| && s[j + 1] == q then
      QuotedEnds(s, q, j + 2) + QuotedEnds(s, q, j + 1)
    else QuotedEnds(s, q, j + 1)
  }

  /** A literal opened before `j` closes iff a quote `q` occurs at or after `j`. */
  lemma {:induction false} QuotedEndsExist(s: string, q: char, j: nat)
    requires q != '\\'
    ensures QuotedEnds(s, q, j) != [] <==> exists t :: j <= t < |s| && s[t] == q
    decreases |s| - j
  {
    if j < |s| && s[j] != q {
      QuotedEndsExist(s, q, j + 1);
      if s[j] == '\\' && j + 1 < |s| && s[j + 1] == q {
        assert QuotedEnds(s, q, j + 1) == [j + 2];
      }
    }
  }

  /**
   * The greedy end closes at the first quote that no backslash escapes:
   * every quote `q` before the closing one is preceded by a backslash
   * inside the literal.
   */
  lemma {:induction false} QuotedEndsFirstClosing(s: string, q: char, j: nat)
    requires q != '\\'
    ensures QuotedEnds(s, q, j) != [] ==>
      forall t :: j <= t < QuotedEnds(s, q, j)[0] - 1 && s[t] == q ==> j < t && s[t - 1] == '\\'
    decreases |s| - j
  {
    if j < |s| && s[j] != q {
      if s[j] == '\\' && j + 1 < |s| && s[j + 1] == q {
        QuotedEndsFirstClosing(s, q, j + 2);
        assert QuotedEnds(s, q, j + 1) == [j + 2];
        if QuotedEnds(s, q, j + 2) != [] && j + 2 < |s| && s[j + 2] == q {
          assert QuotedEnds(s, q, j + 2) == [j + 3];
        }
      } else {
        QuotedEndsFirstClosing(s, q, j + 1);
      }
    }
  }

  /** The engine tries the ends from the longest to the shortest: the greedy end comes first. */
  lemma {:induction false} QuotedEndsDecreasing(s: string, q: char, j: nat)
    requires q != '\\'
    ensures forall k1, k2 :: 0 <= k1 < k2 < |QuotedEnds(s, q, j)| ==> QuotedEnds(s, q, j)[k2] < QuotedEnds(s, q, j)[k1]
    decreases |s| - j
  {
    if j < |s| && s[j] != q {
      if s[j] == '\\' && j + 1 < |s| && s[j + 1] == q {
        QuotedEndsDecreasing(s, q, j + 2);
        assert QuotedEnds(s, q, j + 1) == [j + 2];
      } else {
        QuotedEndsDecreasing(s, q, j + 1);
      }
    }
  }

  /** The end of a triple-quoted span opened at `i`: just past the first closing triple at or after `i + 3`. */
  function TripleEnd(s: string, q: char, i: nat): (r: Option<nat>)
    ensures r.Some? ==> i + 6 <= r.value <= |s|
  {
    match Find(s, [q, q, q], i + 3)
    case Some(k) => Some(k + 3)
    case None => None
  }

  function OptionToSeq(o: Option<nat>): seq<nat> {
    match o
    case Some(v) => [v]
    case None => []
  }

  /**
   * Every end of a STRING_PATTERN match starting at `i`, in the engine's
   * order: the double-quoted alternative, the single-quoted one, then the
   * two triple-quoted ones.
   */
  function LiteralEnds(s: string, i: nat): (r: seq<nat>)
    ensures forall k :: 0 <= k < |r| ==> i + 2 <= r[k] <= |s|
  {
    if i >= |s| then []
    else
      (if s[i] == '"' then QuotedEnds(s, '"', i + 1) else [])
      + (if s[i] == '\'' then QuotedEnds(s, '\'', i + 1) else [])
      + (if StartsAt(s, i, "\"\"\"") then OptionToSeq(TripleEnd(s, '"', i)) else [])
      + (if StartsAt(s, i, "'''") then OptionToSeq(TripleEnd(s, '\'', i)) else [])
  }

  /** Ends of the group `((?:f)?STRING)` starting at `g`: with the optional `f` first. */
  function GroupEnds(s: string, g: nat): (r: seq<nat>)
    ensures forall k :: 0 <= k < |r| ==> g + 2 <= r[k] <= |s|
  {
    (if g < |s| && s[g] == 'f' then LiteralEnds(s, g + 1) else []) + LiteralEnds(s, g)
  }

  /** A pattern that ends with the group: the first end of the group wins. */
  function GroupToEnd(s: string, i: nat, g: nat): (r: Option<Match>)
    requires i <= g
    ensures r.Some? ==> Fits(r.value, s) && r.value.start == i && r.value.groupStart == g
  {
    var ends := GroupEnds(s, g);
    if ends == [] then None else Some(Match(i, ends[0], g, ends[0]))
  }

  /** `[\s]*:[\s]*((?:f)?STRING)` from `j`, for a match that started at `i`. */
  function ColonValue(s: string, i: nat, j: nat): (r: Option<Match>)
    requires i <= j <= |s|
    ensures r.Some? ==> Fits(r.value, s) && r.value.start == i
  {
    var k := SkipSpaces(s, j);
    if k < |s| && s[k] == ':' then GroupToEnd(s, i, SkipSpaces(s, k + 1)) else None
  }

  /** `["']?` after the key name, tried with the quote first. */
  function AfterKeyName(s: string, i: nat, j: nat): (r: Option<Match>)
    requires i <= j <= |s|
    ensures r.Some? ==> Fits(r.value, s) && r.value.start == i
  {
    if j < |s| && IsQuote(s[j]) && ColonValue(s, i, j + 1).Some? then ColonValue(s, i, j + 1)
    else ColonValue(s, i, j)
  }

  /** `\)` after optional whitespace at `e`: the first group end after which it follows wins. */
  function FirstClosed(s: string, i: nat, g: nat, ends: seq<nat>): (r: Option<Match>)
    requires i <= g
    requires forall k :: 0 <= k < |ends| ==> g <= ends[k] <= |s|
    ensures r.Some? ==> Fits(r.value, s) && r.value.start == i && r.value.groupStart == g
    ensures r.Some? ==> r.value.groupEnd in ends
  {
    if ends == [] then None
    else
      var c := SkipSpaces(s, ends[0]);
      if c < |s| && s[c] == ')' then Some(Match(i, c + 1, g, ends[0]))
      else FirstClosed(s, i, g, ends[1..])
  }

  /**
   * The end of the group `[^"\\]*(?:\\.[^"\\]*)*` from `j`: ordinary
   * characters other than a quote or a backslash, and backslash pairs whose
   * second character is not a newline.
   */
  function EscapedRunEnd(s: string, j: nat): (k: nat)
    requires j <= |s|
    ensures j <= k <= |s|
    ensures k < |s| ==> s[k] == '"' || s[k] == '\\'
    decreases |s| - j
  {
    if j >= |s| then j
    else if s[j] != '"' && s[j] != '\\' then EscapedRunEnd(s, j + 1)
    else if s[j] == '\\' && j + 1 < |s| && s[j + 1] != '\n' then EscapedRunEnd(s, j + 2)
    else j
  }

  /** `re.match` of the pattern at index `i`: the engine's first successful match there. */
  function MatchAt(p: Pattern, s: string, i: nat): (r: Option<Match>)
    ensures r.Some? ==> Fits(r.value, s) && r.value.start == i
  {
    if i >= |s| then None
    else match p
      case StringLiteral => LiteralAt(s, i)
      case Assign(name, boundary) => AssignAt(s, i, name, boundary)
      case KeyValue(name) => KeyValueAt(s, i, name)
      case Spaced(name, boundary) => SpacedAt(s, i, name, boundary)
      case Notify => NotifyAt(s, i)
      case BlockComment => BlockCommentAt(s, i)
      case LineComment => LineCommentAt(s, i)
      case SlashComment => SlashCommentAt(s, i)
      case OldEntry => OldEntryAt(s, i)
  }

  /** STRING_PATTERN at `i`: the first literal end. */
  function LiteralAt(s: string, i: nat): (r: Option<Match>)
    requires i < |s|
    ensures r.Some? ==> Fits(r.value, s) && r.value.start == i
  {
    var ends := LiteralEnds(s, i);
    if ends == [] then None else Some(Match(i, ends[0], i, ends[0]))
  }

  /** `name\s*=\s*((?:f)?STRING)` at `i`, with `\b` in front when `boundary` is set. */
  function AssignAt(s: string, i: nat, name: string, boundary: bool): (r: Option<Match>)
    requires i < |s|
    ensures r.Some? ==> Fits(r.value, s) && r.value.start == i
  {
    if (boundary && !WordBoundary(s, i)) || !StartsAt(s, i, name) then None
    else
      var j := SkipSpaces(s, i + |name|);
      if j < |s| && s[j] == '=' then GroupToEnd(s, i, SkipSpaces(s, j + 1)) else None
  }

  /** `["']?name["']?\s*:\s*((?:f)?STRING)` at `i`, trying the opening quote first. */
  function KeyValueAt(s: string, i: nat, name: string): (r: Option<Match>)
    requires i < |s|
    ensures r.Some? ==> Fits(r.value, s) && r.value.start == i
  {
    if IsQuote(s[i]) && StartsAt(s, i + 1, name) && AfterKeyName(s, i, i + 1 + |name|).Some? then
      AfterKeyName(s, i, i + 1 + |name|)
    else if StartsAt(s, i, name) then AfterKeyName(s, i, i + |name|)
    else None
  }

  /** `name\s+((?:f)?STRING)` at `i`, with `\b` in front when `boundary` is set. */
  function SpacedAt(s: string, i: nat, name: string, boundary: bool): (r: Option<Match>)
    requires i < |s|
    ensures r.Some? ==> Fits(r.value, s) && r.value.start == i
  {
    if (boundary && !WordBoundary(s, i)) || !StartsAt(s, i, name) then None
    else
      var k := SkipSpaces(s, i + |name|);
      if k > i + |name| then GroupToEnd(s, i, k) else None
  }

  /** `renpy\.notify\s*\(\s*((?:f)?STRING)\s*\)` at `i`. */
  function NotifyAt(s: string, i: nat): (r: Option<Match>)
    requires i < |s|
    ensures r.Some? ==> Fits(r.value, s) && r.value.start == i
  {
    if !StartsAt(s, i, "renpy.notify") then None
    else
      var k := SkipSpaces(s, i + 12);
      if k < |s| && s[k] == '(' then
        var g := SkipSpaces(s, k + 1);
        FirstClosed(s, i, g, GroupEnds(s, g))
      else None
  }

  /** A triple-quoted block comment at `i`, up to its closing quotes. */
  function BlockCommentAt(s: string, i: nat): (r: Option<Match>)
    requires i < |s|
    ensures r.Some? ==> Fits(r.value, s) && r.value.start == i
  {
    if StartsAt(s, i, "\"\"\"") then
      match TripleEnd(s, '"', i)
      case Some(e) => Some(Match(i, e, i, e))
      case None => None
    else if StartsAt(s, i, "'''") then
      match TripleEnd(s, '\'', i)
      case Some(e) => Some(Match(i, e, i, e))
      case None => None
    else None
  }

  /** A `#` comment at `i`, up to the end of the line. */
  function LineCommentAt(s: string, i: nat): (r: Option<Match>)
    requires i < |s|
    ensures r.Some? ==> Fits(r.value, s) && r.value.start == i
  {
    if s[i] == '#' then
      var e := LineEnd(s, i + 1);
      Some(Match(i, e, i, e))
    else None
  }

  /** A `//` comment at `i`, up to the end of the line. */
  function SlashCommentAt(s: string, i: nat): (r: Option<Match>)
    requires i < |s|
    ensures r.Some? ==> Fits(r.value, s) && r.value.start == i
  {
    if StartsAt(s, i, "//") then
      var e := LineEnd(s, i + 2);
      Some(Match(i, e, i, e))
    else None
  }

  /**
   * The `old` re-parse at index `i`: `old`, at least one whitespace, then
   * a double-quoted body with backslash escapes; only when that fails, a
   * triple-quoted body up to the first closing `"""`.
   */
  function OldEntryAt(s: string, i: nat): (r: Option<Match>)
    requires i < |s|
    ensures r.Some? ==> Fits(r.value, s) && r.value.start == i
  {
    if !StartsAt(s, i, "old") then None
    else
      var k := SkipSpaces(s, i + 3);
      if k == i + 3 || k >= |s| || s[k] != '"' then None
      else
        var r := EscapedRunEnd(s, k + 1);
        if r < |s| && s[r] == '"' then Some(Match(i, r + 1, k + 1, r))
        else if StartsAt(s, k, "\"\"\"") then
          match Find(s, "\"\"\"", k + 3)
          case Some(e) => Some(Match(i, e + 3, k + 3, e))
          case None => None
        else None
  }

  /** Matches that do not overlap and come left to right. */
  predicate Ordered(ms: seq<Match>) {
    forall k1, k2 :: 0 <= k1 < k2 < |ms| ==> ms[k1].end <= ms[k2].start
  }

  /** A match ending before every later one extends an ordered run at the front. */
  lemma OrderedCons(m: Match, rest: seq<Match>)
    requires Ordered(rest) && forall k :: 0 <= k < |rest| ==> m.end <= rest[k].start
    ensures Ordered([m] + rest)
  {
    var ms := [m] + rest;
    forall k1, k2 | 0 <= k1 < k2 < |ms| ensures ms[k1].end <= ms[k2].start {
      assert ms[k2] == rest[k2 - 1];
      if k1 > 0 {
        assert ms[k1] == rest[k1 - 1];
      }
    }
  }

  /**
   * `re.finditer` from index `i`: try each position in turn; after a match
   * resume at its end (no pattern here matches the empty string).
   */
  function Scan(p: Pattern, s: string, i: nat): (r: seq<Match>)
    ensures forall k :: 0 <= k < |r| ==> Fits(r[k], s) && i <= r[k].start
    ensures Ordered(r)
    decreases |s| - i
  {
    if i >= |s| then []
    else match MatchAt(p, s, i)
      case Some(m) =>
        var rest := Scan(p, s, m.end);
        OrderedCons(m, rest);
        [m] + rest
      case None => Scan(p, s, i + 1)
  }

  /** All matches of `p` in `s`, left to right and non-overlapping. */
  function FindAll(p: Pattern, s: string): (r: seq<Match>)
    ensures forall k :: 0 <= k < |r| ==> Fits(r[k], s)
    ensures Ordered(r)
  {
    Scan(p, s, 0)
  }

  /** Position `t` lies before, between or after the matches `ms`, in none of them. */
  predicate Uncovered(ms: seq<Match>, t: nat) {
    forall k :: 0 <= k < |ms| ==> t < ms[k].start || ms[k].end <= t
  }

  /** A matcher whose match at `j`, if any, starts at `j` and is not empty. */
  ghost predicate Advancing(f: nat -> Option<Match>) {
    forall j: nat :: f(j).Some? ==> f(j).value.start == j < f(j).value.end
  }

  /** The scan of `Scan` for an arbitrary advancing matcher `f` over a text of length `n`. */
  ghost function ScanWith(f: nat -> Option<Match>, n: nat, i: nat): seq<Match>
    requires Advancing(f)
    decreases n - i
  {
    if i >= n then []
    else match f(i)
      case Some(m) => [m] + ScanWith(f, n, m.end)
      case None => ScanWith(f, n, i + 1)
  }

  /** The engine at every position of `s`, as a matcher. */
  ghost function Engine(p: Pattern, s: string): (f: nat -> Option<Match>)
    ensures Advancing(f)
  {
    (j: nat) => MatchAt(p, s, j)
  }

  /** `Scan` is the scan of the engine's matcher. */
  lemma {:induction false} ScanIsScanWith(p: Pattern, s: string, i: nat)
    ensures Scan(p, s, i) == ScanWith(Engine(p, s), |s|, i)
    decreases |s| - i
  {
    if i < |s| {
      var o := MatchAt(p, s, i);
      assert Engine(p, s)(i) == o;
      if o.Some? {
        ScanIsScanWith(p, s, o.value.end);
      } else {
        ScanIsScanWith(p, s, i + 1);
      }
    }
  }

  /** Each match the scan reports is the matcher's match at its start. */
  lemma {:induction false} ScanWithSound(f: nat -> Option<Match>, n: nat, i: nat, m: Match)
    requires Advancing(f) && m in ScanWith(f, n, i)
    ensures f(m.start) == Some(m)
    decreases n - i
  {
    assert i < n;
    match f(i)
    case Some(first) =>
      if m != first {
        ScanWithSound(f, n, first.end, m);
      }
    case None =>
      ScanWithSound(f, n, i + 1, m);
  }

  /** The scan skips no match: the matcher has none at a position outside every reported match. */
  lemma {:induction false} ScanWithComplete(f: nat -> Option<Match>, n: nat, i: nat, t: nat)
    requires Advancing(f) && i <= t < n && Uncovered(ScanWith(f, n, i), t)
    ensures f(t).None?
    decreases n - i
  {
    match f(i)
    case Some(first) =>
      var rest := ScanWith(f, n, first.end);
      var r := ScanWith(f, n, i);
      assert r == [first] + rest && r[0] == first;
      forall k | 0 <= k < |rest| ensures t < rest[k].start || rest[k].end <= t {
        assert r[k + 1] == rest[k];
      }
      ScanWithComplete(f, n, first.end, t);
    case None =>
      if t != i {
        ScanWithComplete(f, n, i + 1, t);
      }
  }

  /**
   * `re.finditer`'s meaning: every reported match is the engine's match at
   * its start, and no position left between the reported matches (before
   * the first, between two, after the last) starts a match.
   */
  lemma FindAllIsFinditer(p: Pattern, s: string)
    ensures forall k :: 0 <= k < |FindAll(p, s)| ==> MatchAt(p, s, FindAll(p, s)[k].start) == Some(FindAll(p, s)[k])
    ensures forall t: nat :: Uncovered(FindAll(p, s), t) ==> MatchAt(p, s, t).None?
  {
    var f := Engine(p, s);
    ScanIsScanWith(p, s, 0);
    forall k | 0 <= k < |FindAll(p, s)| ensures MatchAt(p, s, FindAll(p, s)[k].start) == Some(FindAll(p, s)[k]) {
      ScanWithSound(f, |s|, 0, FindAll(p, s)[k]);
      assert f(FindAll(p, s)[k].start) == MatchAt(p, s, FindAll(p, s)[k].start);
    }
    forall t: nat | Uncovered(FindAll(p, s), t) ensures MatchAt(p, s, t).None? {
      if t < |s| {
        ScanWithComplete(f, |s|, 0, t);
        assert f(t) == MatchAt(p, s, t);
      }
    }
  }

  /** The text a match captured. */
  function GroupText(s: string, m: Match): string
    requires Fits(m, s)
  {
    s[m.groupStart..m.groupEnd]
  }

  // ---------------------------------------------------------------------
  // Properties of the grammar

  /**
   * A triple-double-quoted literal is first recognised as the empty
   * literal `""`: the plain double-quoted alternative is tried first.
   */
  lemma TripleQuoteFirstSeenAsEmpty(s: string, i: nat)
    requires StartsAt(s, i, "\"\"\"")
    ensures LiteralEnds(s, i) != [] && LiteralEnds(s, i)[0] == i + 2
  {
    assert s[i] == '"' && s[i + 1] == '"';
    assert QuotedEnds(s, '"', i + 1) == [i + 2];
  }

  /**
   * For a pattern that ends with the literal (every property shape), a
   * triple-quoted value therefore captures just `""`.
   */
  lemma TripleQuotedPropertyCapturesEmptyPair(s: string, i: nat, g: nat)
    requires i <= g && StartsAt(s, g, "\"\"\"")
    ensures GroupToEnd(s, i, g).Some?
    ensures GroupText(s, GroupToEnd(s, i, g).value) == "\"\""
  {
    TripleQuoteFirstSeenAsEmpty(s, g);
    var ends := LiteralEnds(s, g);
    assert GroupEnds(s, g) == [] + ends;
    assert s[g..g + 2] == [s[g], s[g + 1]];
  }

  /**
   * `\b` keeps a property pattern from matching the tail of a longer
   * identifier: when a word character precedes, a name that begins with a
   * word character cannot match.
   */
  lemma BoundaryRejectsIdentifierSuffix(name: string, s: string, i: nat)
    requires 0 < i <= |s| && IsWordChar(s[i - 1])
    requires name != [] && IsWordChar(name[0])
    ensures MatchAt(CreatePropertyPattern(name), s, i).None?
  {
    if i < |s| && StartsAt(s, i, name) {
      assert s[i] == s[i..i + |name|][0];
    }
  }

  /** `headmaster_name = "X"`: the suffix `name` begins at index 11. */
  const Headmaster: string := "headmaster_name = \"X\""

  /** The value `"X"` of `headmaster_name` is read as one double-quoted literal ending the line. */
  lemma HeadmasterValue()
    ensures GroupToEnd(Headmaster, 11, 18) == Some(Match(11, 21, 18, 21))
  {
    var s := Headmaster;
    assert QuotedEnds(s, '"', 19) == [21] by {
      assert QuotedEnds(s, '"', 20) == [21];
    }
    assert s[18] == '"' && s[19] == 'X';
    assert !StartsAt(s, 18, "\"\"\"");
    assert !StartsAt(s, 18, "'''");
    assert LiteralEnds(s, 18) == [21];
    assert GroupEnds(s, 18) == [21];
  }

  /**
   * NAME_PATTERN, which has no `\b`, does match the `name` suffix of
   * `headmaster_name`, capturing `"X"`.
   */
  lemma NamePatternMatchesIdentifierSuffix()
    ensures MatchAt(NamePattern, Headmaster, 11) == Some(Match(11, 21, 18, 21))
  {
    var s := Headmaster;
    assert StartsAt(s, 11, "name");
    assert SkipSpaces(s, 15) == 16 by {
      assert SkipSpaces(s, 16) == 16;
    }
    assert s[16] == '=';
    assert SkipSpaces(s, 17) == 18 by {
      assert SkipSpaces(s, 18) == 18;
    }
    HeadmasterValue();
    AssignMatch(s, 11, "name");
  }

  /** An unbounded assignment pattern whose name, spaces and `=` are found reads the group after them. */
  lemma AssignMatch(s: string, i: nat, name: string)
    requires i < |s| && StartsAt(s, i, name)
    requires var j := SkipSpaces(s, i + |name|); j < |s| && s[j] == '='
    ensures MatchAt(Assign(name, false), s, i) == GroupToEnd(s, i, SkipSpaces(s, SkipSpaces(s, i + |name|) + 1))
  {
    MatchAtAssign(s, i, name, false);
  }

  lemma MatchAtAssign(s: string, i: nat, name: string, boundary: bool)
    requires i < |s|
    ensures MatchAt(Assign(name, boundary), s, i) == AssignAt(s, i, name, boundary)
  {
  }

  /** `create_property_pattern('name')` does not match the `name` suffix of `headmaster_name`. */
  lemma PropertyPatternRejectsIdentifierSuffix()
    ensures MatchAt(CreatePropertyPattern("name"), Headmaster, 11).None?
  {
    assert Headmaster[10] == '_';
    BoundaryRejectsIdentifierSuffix("name", Headmaster, 11);
  }

  /**
   * The re-parse of `old` lines never reaches its triple-quoted
   * alternative: a multi-line `old """` block is read as the empty
   * literal `""`, so the captured text is empty.
   */
  lemma OldTripleBlockCapturesEmpty(s: string, i: nat)
    requires StartsAt(s, i, "old")
    requires var k := SkipSpaces(s, i + 3); k > i + 3 && StartsAt(s, k, "\"\"\"")
    ensures OldEntryAt(s, i).Some?
    ensures var m := OldEntryAt(s, i).value; m.groupStart == m.groupEnd
  {
    var k := SkipSpaces(s, i + 3);
    assert s[k] == '"' && s[k + 1] == '"';
    assert EscapedRunEnd(s, k + 1) == k + 1;
  }

  /**
   * The `old` re-parse captures a backslash-escaped quote verbatim: a
   * written line `old "a\"b"` yields the text `a\"b`, backslash included.
   */
  lemma OldEntryKeepsEscapes()
    ensures MatchAt(OldEntry, "old \"a\\\"b\"", 0) == Some(Match(0, 10, 5, 9))
    ensures GroupText("old \"a\\\"b\"", Match(0, 10, 5, 9)) == "a\\\"b"
  {
    var s := "old \"a\\\"b\"";
    assert StartsAt(s, 0, "old");
    assert SkipSpaces(s, 3) == 4 by {
      assert SkipSpaces(s, 4) == 4;
    }
    assert EscapedRunEnd(s, 5) == 9 by {
      assert EscapedRunEnd(s, 9) == 9;
      assert EscapedRunEnd(s, 8) == 9;
      assert EscapedRunEnd(s, 6) == 9;
    }
  }
}
