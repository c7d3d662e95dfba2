/**
 * core/extractors_impl/common.py: comment ranges, the "is this position in a
 * comment" test, line numbers, the literal decoder, the generic
 * match-filter-decode extractor and the recursive JSON walker every
 * extractor builds on.
 */
module Common {
  import opened Wrappers
  import opened Text
  import opened Patterns
  import opened JsonData
  import opened Seqs

  /** One extracted candidate: a locator (line number, JSON depth or name sentinel) and the decoded text. */
  datatype Entry = Entry(line: int, text: string)

  /** A comment's span as `(m.start(), m.end())`. */
  datatype Range = Range(start: nat, end: nat)

  // ---------------------------------------------------------------------
  // Comment ranges

  /** The spans of a list of matches, in order. */
  function Spans(ms: seq<Match>): (r: seq<Range>)
    ensures |r| == |ms|
  {
    if ms == [] then [] else Spans(ms[..|ms| - 1]) + [Range(ms[|ms| - 1].start, ms[|ms| - 1].end)]
  }

  /** The `t`-th span is that of the `t`-th match. */
  lemma {:induction false} SpanAt(ms: seq<Match>, t: nat)
    requires t < |ms|
    ensures Spans(ms)[t] == Range(ms[t].start, ms[t].end)
    decreases |ms|
  {
    if t < |ms| - 1 {
      SpanAt(ms[..|ms| - 1], t);
    }
  }

  /** The ranges `get_comment_ranges` collects: pattern by pattern, each pattern's matches left to right. */
  function CommentRanges(content: string, patterns: seq<Pattern>): seq<Range>
  {
    if patterns == [] then []
    else
      CommentRanges(content, patterns[..|patterns| - 1])
      + PatternSpans(content, patterns[|patterns| - 1])
  }

  /** The spans of one comment pattern's matches. */
  function PatternSpans(content: string, p: Pattern): seq<Range> {
    Spans(FindAll(p, content))
  }

  /** `get_comment_ranges`: loops over the patterns and their matches, appending each span. */
  method GetCommentRanges(content: string, patterns: seq<Pattern>) returns (ranges: seq<Range>)
    ensures ranges == CommentRanges(content, patterns)
  {
    ranges := [];
    for k := 0 to |patterns|
      invariant ranges == CommentRanges(content, patterns[..k])
    {
      ranges := AppendSpans(ranges, FindAll(patterns[k], content));
      assert patterns[..k + 1][..k] == patterns[..k];
    }
    assert patterns[..|patterns|] == patterns;
  }

  /** The inner loop of `get_comment_ranges`: append the span of each match in turn. */
  method AppendSpans(ranges: seq<Range>, ms: seq<Match>) returns (r: seq<Range>)
    ensures r == ranges + Spans(ms)
  {
    r := ranges;
    for t := 0 to |ms|
      invariant r == ranges + Spans(ms[..t])
    {
      assert ms[..t + 1][..t] == ms[..t];
      AppendAssoc(ranges, Spans(ms[..t]), [Range(ms[t].start, ms[t].end)]);
      r := r + [Range(ms[t].start, ms[t].end)];
    }
    assert ms[..|ms|] == ms;
  }

  /** Ranges are collected in pattern order: the ranges of `a + b` are those of `a` followed by those of `b`. */
  lemma {:induction false} CommentRangesAppend(content: string, a: seq<Pattern>, b: seq<Pattern>)
    ensures CommentRanges(content, a + b) == CommentRanges(content, a) + CommentRanges(content, b)
    decreases |b|
  {
    if b == [] {
      assert a + b == a;
    } else {
      var b' := b[..|b| - 1];
      var last := b[|b| - 1];
      var ab := a + b;
      assert ab[..|ab| - 1] == a + b' && ab[|ab| - 1] == last;
      calc {
        CommentRanges(content, ab);
        CommentRanges(content, a + b') + PatternSpans(content, last);
        { CommentRangesAppend(content, a, b'); }
        (CommentRanges(content, a) + CommentRanges(content, b')) + PatternSpans(content, last);
        { AppendAssoc(CommentRanges(content, a), CommentRanges(content, b'), PatternSpans(content, last)); }
        CommentRanges(content, a) + CommentRanges(content, b);
      }
    }
  }

  /**
   * A range is collected exactly when it is the span of a match of one of
   * the patterns; every range is a non-empty span inside the content.
   */
  lemma {:induction false} CommentRangesAreMatchSpans(content: string, patterns: seq<Pattern>, r: Range)
    ensures r in CommentRanges(content, patterns) <==>
      exists k, m :: 0 <= k < |patterns| && m in FindAll(patterns[k], content) && r == Range(m.start, m.end)
    ensures r in CommentRanges(content, patterns) ==> r.start < r.end <= |content|
    decreases |patterns|
  {
    if patterns != [] {
      var init := patterns[..|patterns| - 1];
      var last := patterns[|patterns| - 1];
      var ms := FindAll(last, content);
      CommentRangesAreMatchSpans(content, init, r);
      SpansMembers(ms, r);
      assert CommentRanges(content, patterns) == CommentRanges(content, init) + Spans(ms);
      if r in CommentRanges(content, init) {
        var k, m :| 0 <= k < |init| && m in FindAll(init[k], content) && r == Range(m.start, m.end);
        assert patterns[k] == init[k];
      }
      if r in Spans(ms) {
        var t :| 0 <= t < |ms| && r == Range(ms[t].start, ms[t].end);
        assert ms[t] in FindAll(patterns[|patterns| - 1], content);
      }
      if exists k, m :: 0 <= k < |patterns| && m in FindAll(patterns[k], content) && r == Range(m.start, m.end) {
        var k, m :| 0 <= k < |patterns| && m in FindAll(patterns[k], content) && r == Range(m.start, m.end);
        if k < |patterns| - 1 {
          assert patterns[k] == init[k];
        } else {
          var t :| 0 <= t < |ms| && ms[t] == m;
        }
      }
    }
  }

  /** A range is among the spans exactly when it is the span of one of the matches. */
  lemma SpansMembers(ms: seq<Match>, r: Range)
    ensures r in Spans(ms) <==> exists t :: 0 <= t < |ms| && r == Range(ms[t].start, ms[t].end)
  {
    if r in Spans(ms) {
      var t :| 0 <= t < |ms| && Spans(ms)[t] == r;
      SpanAt(ms, t);
    }
    if exists t :: 0 <= t < |ms| && r == Range(ms[t].start, ms[t].end) {
      var t :| 0 <= t < |ms| && r == Range(ms[t].start, ms[t].end);
      SpanAt(ms, t);
    }
  }

  /**
   * `is_in_comments`: whether `pos` lies in some range, both ends
   * included (so the index just past a comment counts as inside it).
   */
  function IsInComments(pos: int, ranges: seq<Range>): bool {
    ranges != [] && ((ranges[0].start <= pos <= ranges[0].end) || IsInComments(pos, ranges[1..]))
  }

  /** A position is in the comments exactly when some range holds it, both ends included. */
  lemma {:induction false} IsInCommentsIff(pos: int, ranges: seq<Range>)
    ensures IsInComments(pos, ranges) <==> exists k :: 0 <= k < |ranges| && ranges[k].start <= pos <= ranges[k].end
  {
    if ranges != [] {
      IsInCommentsIff(pos, ranges[1..]);
      if IsInComments(pos, ranges[1..]) {
        var k :| 0 <= k < |ranges[1..]| && ranges[1..][k].start <= pos <= ranges[1..][k].end;
        assert ranges[k + 1] == ranges[1..][k];
      }
      if exists k :: 0 <= k < |ranges| && ranges[k].start <= pos <= ranges[k].end {
        var k :| 0 <= k < |ranges| && ranges[k].start <= pos <= ranges[k].end;
        if k > 0 {
          assert ranges[1..][k - 1] == ranges[k];
        }
      }
    }
  }

  // ---------------------------------------------------------------------
  // Line numbers

  /** `get_line_number`: one more than the newlines before `pos` (Python clamps `pos` to the length). */
  function LineNumber(content: string, pos: nat): int {
    var p := if pos > |content| then |content| else pos;
    CountBefore(content, '\n', p) + 1
  }

  /** The line number counts the newlines of the prefix before the position. */
  lemma LineNumberCountsPrefix(content: string, pos: nat)
    requires pos <= |content|
    ensures LineNumber(content, pos) == CountChar(content[..pos], '\n') + 1
  {
    CountBeforeIsCount(content, '\n', pos);
  }

  /** Every position lies on a line of the content: between 1 and one more than its newline count. */
  lemma LineNumberInRange(content: string, pos: nat)
    ensures 1 <= LineNumber(content, pos) <= CountChar(content, '\n') + 1
  {
    var p := if pos > |content| then |content| else pos;
    CountBeforeMonotone(content, '\n', p, |content|);
    CountBeforeIsCount(content, '\n', |content|);
    assert content[..|content|] == content;
  }

  /** Line numbers never decrease as the position moves forward. */
  lemma LineNumberMonotone(content: string, i: nat, j: nat)
    requires i <= j <= |content|
    ensures LineNumber(content, i) <= LineNumber(content, j)
  {
    CountBeforeMonotone(content, '\n', i, j);
  }

  /** Moving one character forward advances the line exactly when that character is a newline. */
  lemma LineNumberStep(content: string, i: nat)
    requires i < |content|
    ensures LineNumber(content, i + 1) == LineNumber(content, i) + (if content[i] == '\n' then 1 else 0)
  {
  }

  // ---------------------------------------------------------------------
  // Literal decoding

  /** Python's `value[a:len(value) - b]` for non-negative `a`, `b`: empty when the bounds cross. */
  function Inner(value: string, a: nat, b: nat): string {
    if a + b <= |value| then value[a..|value| - b] else []
  }

  /** `value[1:]` when the literal carries an f-string prefix, else the value itself. */
  function DropPrefix(value: string): (v: string)
    ensures v == value || (value != [] && value[0] == 'f' && v == value[1..])
  {
    if value != [] && value[0] == 'f' then value[1..] else value
  }

  /** `v` starts with three `q` and ends with three `q` (the two runs may overlap). */
  predicate Delimited(v: string, q: char) {
    |v| >= 3 && AllAre(v[..3], q) && AllAre(v[|v| - 3..], q)
  }

  /** Every character of `s` is `q`. */
  predicate AllAre(s: string, q: char) {
    forall k :: 0 <= k < |s| ==> s[k] == q
  }

  /** Width of the delimiter stripped from each end: 3 for a triple-quoted literal, else 1. */
  function Delimiter(v: string): nat {
    if Delimited(v, '"') || Delimited(v, '\'') then 3 else 1
  }

  /** Where the body of a (prefix-free) literal starts; 0 when the delimiters overlap and the body is empty. */
  function BodyOffset(v: string): nat {
    var d := Delimiter(v);
    if d + d <= |v| then d else 0
  }

  /** The body of a (prefix-free) literal: three characters off each end for triple quotes, else one. */
  function Unquote(v: string): string {
    Inner(v, Delimiter(v), Delimiter(v))
  }

  /** Where the decoded text starts within the literal, past any prefix and delimiter. */
  function LiteralOffset(value: string): nat {
    var v := DropPrefix(value);
    |value| - |v| + BodyOffset(v)
  }

  /**
   * `extract_string_value`: drop one leading `f`, then strip a triple
   * delimiter pair if both ends carry it, otherwise the first and last
   * characters. Nothing is unescaped.
   */
  function DecodeLiteral(value: string): string {
    Unquote(DropPrefix(value))
  }

  /** The decoded text is a verbatim slice of the literal, starting at LiteralOffset. */
  lemma DecodeLiteralIsSlice(value: string)
    ensures StartsAt(value, LiteralOffset(value), DecodeLiteral(value))
  {
    var v := DropPrefix(value);
    UnquoteIsSlice(v);
    if v != value {
      assert value[1..|value|] == v;
      StartsAtSlice(value, 1, |value|, BodyOffset(v), Unquote(v));
    }
  }

  /** The body of a prefix-free literal is the slice of it at BodyOffset. */
  lemma UnquoteIsSlice(v: string)
    ensures StartsAt(v, BodyOffset(v), Unquote(v))
  {
    var d := Delimiter(v);
    if d + d <= |v| {
      StartsAtIff(v, d, v[d..|v| - d]);
    }
  }

  /**
   * A double-quoted literal decodes to its body, escapes included, unless
   * the literal also reads as triple-quoted (the body is a single quote,
   * or starts and ends with two quotes).
   */
  lemma DecodeDoubleQuoted(body: string)
    requires body != "\"" && !(StartsWith(body, "\"\"") && EndsWith(body, "\"\""))
    ensures DecodeLiteral("\"" + body + "\"") == body
  {
    var v := "\"" + body + "\"";
    assert DropPrefix(v) == v by {
      assert v[0] == '"';
    }
    if |body| == 1 {
      assert body == [body[0]];
      assert v[..3][1] == body[0] != '"';
    } else if |body| >= 2 {
      StartsAtIff(body, 0, "\"\"");
      StartsAtIff(body, |body| - 2, "\"\"");
      if !StartsWith(body, "\"\"") {
        assert body[..2] == [v[..3][1], v[..3][2]] != "\"\"";
      } else {
        assert body[|body| - 2..] == [v[|v| - 3..][0], v[|v| - 3..][1]] != "\"\"";
      }
    }
    assert !Delimited(v, '"');
    assert !Delimited(v, '\'');
    assert v[1..|v| - 1] == body;
  }

  /** The f-string prefix changes nothing: `f"…"` decodes like `"…"`. */
  lemma DecodeFString(value: string)
    requires value != [] && value[0] != 'f'
    ensures DecodeLiteral("f" + value) == DecodeLiteral(value)
  {
    var fv := "f" + value;
    assert fv[1..] == value;
  }

  /** A triple-quoted literal decodes to exactly its body. */
  lemma DecodeTripleQuoted(body: string)
    ensures DecodeLiteral("\"\"\"" + body + "\"\"\"") == body
    ensures DecodeLiteral("'''" + body + "'''") == body
  {
    var v := "\"\"\"" + body + "\"\"\"";
    assert v[0] == '"';
    assert DropPrefix(v) == v;
    assert v[..3] == "\"\"\"" && v[|v| - 3..] == "\"\"\"";
    assert v[3..|v| - 3] == body;
    var w := "'''" + body + "'''";
    assert w[0] == '\'';
    assert DropPrefix(w) == w;
    assert w[..3] == "'''" && w[|w| - 3..] == "'''";
    assert w[3..|w| - 3] == body;
  }

  /** The empty literal `""` (what a triple-quoted property value is read as) decodes to nothing. */
  lemma DecodeEmptyPair()
    ensures DecodeLiteral("\"\"") == []
  {
    var v := "\"\"";
    assert v[0] == '"';
    assert DropPrefix(v) == v;
  }

  // ---------------------------------------------------------------------
  // The generic extractor

  /** The filter `if text and text.strip()`. */
  predicate Keep(text: string) {
    text != [] && Strip(text) != []
  }

  /** A text is kept exactly when it has a non-whitespace character. */
  lemma KeepIffNotBlank(text: string)
    ensures Keep(text) <==> !IsBlank(text)
  {
    StripEmptyIffBlank(text);
  }

  predicate AllFit(ms: seq<Match>, content: string) {
    forall k :: 0 <= k < |ms| ==> Fits(ms[k], content)
  }

  /** What one match contributes: nothing if it starts in a comment or decodes to a blank text. */
  function EntryOf(content: string, m: Match, ranges: seq<Range>): seq<Entry>
    requires Fits(m, content)
  {
    if IsInComments(m.start, ranges) then []
    else KeptEntry(LineNumber(content, m.start), DecodeLiteral(GroupText(content, m)))
  }

  /** The entries the matching loop keeps, in match order. */
  function KeptEntries(content: string, ms: seq<Match>, ranges: seq<Range>): seq<Entry>
    requires AllFit(ms, content)
  {
    if ms == [] then []
    else KeptEntries(content, ms[..|ms| - 1], ranges) + EntryOf(content, ms[|ms| - 1], ranges)
  }

  /** Entries come out in match order: the entries of `a + b` are those of `a`, then those of `b`. */
  lemma {:induction false} KeptEntriesAppend(content: string, a: seq<Match>, b: seq<Match>, ranges: seq<Range>)
    requires AllFit(a, content) && AllFit(b, content)
    ensures AllFit(a + b, content)
    ensures KeptEntries(content, a + b, ranges) == KeptEntries(content, a, ranges) + KeptEntries(content, b, ranges)
    decreases |b|
  {
    var ab := a + b;
    assert AllFit(ab, content) by {
      forall k | 0 <= k < |ab| ensures Fits(ab[k], content) {
        if k < |a| { assert ab[k] == a[k]; } else { assert ab[k] == b[k - |a|]; }
      }
    }
    if b == [] {
      assert ab == a;
    } else {
      var b' := b[..|b| - 1];
      var m := b[|b| - 1];
      assert AllFit(b', content);
      KeptEntriesAppend(content, a, b', ranges);
      assert ab[..|ab| - 1] == a + b';
      assert ab[|ab| - 1] == m;
      assert KeptEntries(content, ab, ranges) == KeptEntries(content, a + b', ranges) + EntryOf(content, m, ranges);
      assert KeptEntries(content, b, ranges) == KeptEntries(content, b', ranges) + EntryOf(content, m, ranges);
    }
  }

  /**
   * Match `m` yields entry `e`: it starts outside every comment range, its
   * group decodes to a text that is not blank, and `e` carries that text
   * and the line of the match start.
   */
  predicate Yields(content: string, m: Match, ranges: seq<Range>, e: Entry)
    requires Fits(m, content)
  {
    !IsInComments(m.start, ranges)
    && e.text == DecodeLiteral(GroupText(content, m)) && !IsBlank(e.text)
    && e.line == LineNumber(content, m.start)
  }

  /** One match contributes exactly the entries it yields. */
  lemma EntryOfMembers(content: string, m: Match, ranges: seq<Range>, e: Entry)
    requires Fits(m, content)
    ensures e in EntryOf(content, m, ranges) <==> Yields(content, m, ranges, e)
  {
    if e in EntryOf(content, m, ranges) {
      EntryOfYields(content, m, ranges, e);
    }
    if Yields(content, m, ranges, e) {
      YieldsEntryOf(content, m, ranges, e);
    }
  }

  lemma EntryOfYields(content: string, m: Match, ranges: seq<Range>, e: Entry)
    requires Fits(m, content) && e in EntryOf(content, m, ranges)
    ensures Yields(content, m, ranges, e)
  {
    KeepIffNotBlank(DecodeLiteral(GroupText(content, m)));
  }

  lemma YieldsEntryOf(content: string, m: Match, ranges: seq<Range>, e: Entry)
    requires Fits(m, content) && Yields(content, m, ranges, e)
    ensures e in EntryOf(content, m, ranges)
  {
    KeepIffNotBlank(DecodeLiteral(GroupText(content, m)));
  }

  /** An entry is produced exactly when some match yields it. */
  lemma KeptEntriesMembers(content: string, ms: seq<Match>, ranges: seq<Range>, e: Entry)
    requires AllFit(ms, content)
    ensures e in KeptEntries(content, ms, ranges) <==>
      exists k :: 0 <= k < |ms| && Yields(content, ms[k], ranges, e)
  {
    if exists k :: 0 <= k < |ms| && Yields(content, ms[k], ranges, e) {
      var k :| 0 <= k < |ms| && Yields(content, ms[k], ranges, e);
      KeptEntriesComplete(content, ms, ranges, k, e);
    }
    if e in KeptEntries(content, ms, ranges) {
      var k := KeptEntriesSound(content, ms, ranges, e);
    }
  }

  /** Every entry the loop keeps was yielded by one of the matches. */
  lemma KeptEntriesSound(content: string, ms: seq<Match>, ranges: seq<Range>, e: Entry)
    returns (k: nat)
    requires AllFit(ms, content) && e in KeptEntries(content, ms, ranges)
    ensures k < |ms| && Yields(content, ms[k], ranges, e)
  {
    k := KeptEntryOwner(content, ms, ranges, e);
    EntryOfYields(content, ms[k], ranges, e);
  }

  /** The match whose contribution holds a kept entry. */
  lemma {:induction false} KeptEntryOwner(content: string, ms: seq<Match>, ranges: seq<Range>, e: Entry)
    returns (k: nat)
    requires AllFit(ms, content) && e in KeptEntries(content, ms, ranges)
    ensures k < |ms| && e in EntryOf(content, ms[k], ranges)
    decreases |ms|
  {
    var init := ms[..|ms| - 1];
    assert AllFit(init, content);
    var last := EntryOf(content, ms[|ms| - 1], ranges);
    assert KeptEntries(content, ms, ranges) == KeptEntries(content, init, ranges) + last;
    if e in last {
      k := |ms| - 1;
    } else {
      assert e in KeptEntries(content, init, ranges);
      k := KeptEntryOwner(content, init, ranges, e);
      assert ms[k] == init[k];
    }
  }

  /** Every entry a match yields is kept. */
  lemma {:induction false} KeptEntriesComplete(content: string, ms: seq<Match>, ranges: seq<Range>, k: nat, e: Entry)
    requires AllFit(ms, content) && k < |ms| && Yields(content, ms[k], ranges, e)
    ensures e in KeptEntries(content, ms, ranges)
    decreases |ms|
  {
    var init := ms[..|ms| - 1];
    assert AllFit(init, content);
    if k == |ms| - 1 {
      YieldsEntryOf(content, ms[k], ranges, e);
    } else {
      assert ms[k] == init[k];
      KeptEntriesComplete(content, init, ranges, k, e);
    }
  }

  /**
   * What every extractor over source text promises of an entry: its text
   * is not blank and occurs verbatim in the content, and its line is a
   * line of the content.
   */
  ghost predicate FromContent(content: string, e: Entry) {
    !IsBlank(e.text)
    && 1 <= e.line <= CountChar(content, '\n') + 1
    && Contains(content, e.text)
  }

  ghost predicate AllFromContent(content: string, entries: seq<Entry>) {
    forall i :: 0 <= i < |entries| ==> FromContent(content, entries[i])
  }

  /** The entry a loop keeps for a decoded text: none when the text is blank. */
  function KeptEntry(line: int, text: string): seq<Entry> {
    if Keep(text) then [Entry(line, text)] else []
  }

  /** A text found at `a`, with a line in range, gives an entry from the content if it is kept. */
  lemma KeptFromContent(content: string, line: int, text: string, a: nat)
    requires 1 <= line <= CountChar(content, '\n') + 1 && StartsAt(content, a, text)
    ensures AllFromContent(content, KeptEntry(line, text))
  {
    if Keep(text) {
      KeepIffNotBlank(text);
      ContainsAt(content, a, text);
      assert FromContent(content, KeptEntry(line, text)[0]);
    }
  }

  /** Concatenating entry lists keeps every entry's promise. */
  lemma AllFromContentAppend(content: string, a: seq<Entry>, b: seq<Entry>)
    requires AllFromContent(content, a) && AllFromContent(content, b)
    ensures AllFromContent(content, a + b)
  {
    forall i | 0 <= i < |a + b| ensures FromContent(content, (a + b)[i]) {
      if i < |a| {
        assert (a + b)[i] == a[i];
      } else {
        assert (a + b)[i] == b[i - |a|];
      }
    }
  }

  /** A decoded group is a verbatim piece of the content. */
  lemma DecodedGroupInContent(content: string, m: Match) returns (a: nat)
    requires Fits(m, content)
    ensures StartsAt(content, a, DecodeLiteral(GroupText(content, m)))
  {
    var g := GroupText(content, m);
    DecodeLiteralIsSlice(g);
    StartsAtSlice(content, m.groupStart, m.groupEnd, LiteralOffset(g), DecodeLiteral(g));
    a := m.groupStart + LiteralOffset(g);
  }

  /** One match contributes only a non-blank verbatim text with a valid line number. */
  lemma EntryOfFromContent(content: string, m: Match, ranges: seq<Range>)
    requires Fits(m, content)
    ensures AllFromContent(content, EntryOf(content, m, ranges))
  {
    if !IsInComments(m.start, ranges) {
      var a := DecodedGroupInContent(content, m);
      LineNumberInRange(content, m.start);
      KeptFromContent(content, LineNumber(content, m.start), DecodeLiteral(GroupText(content, m)), a);
    }
  }

  /** The matching loop only emits non-blank verbatim texts with valid line numbers. */
  lemma {:induction false} KeptEntriesFromContent(content: string, ms: seq<Match>, ranges: seq<Range>)
    requires AllFit(ms, content)
    ensures AllFromContent(content, KeptEntries(content, ms, ranges))
    decreases |ms|
  {
    if ms != [] {
      var init := ms[..|ms| - 1];
      assert AllFit(init, content);
      KeptEntriesFromContent(content, init, ranges);
      EntryOfFromContent(content, ms[|ms| - 1], ranges);
      AllFromContentAppend(content, KeptEntries(content, init, ranges), EntryOf(content, ms[|ms| - 1], ranges));
    }
  }

  /** What `extract_with_pattern` returns for `pattern` with the given comment patterns. */
  function PatternEntries(content: string, pattern: Pattern, commentPatterns: seq<Pattern>): seq<Entry>
  {
    KeptEntries(content, FindAll(pattern, content), CommentRanges(content, commentPatterns))
  }

  /**
   * `extract_with_pattern` (group 1, as every caller passes): collect the
   * comment ranges, then walk the matches, skipping those that start in a
   * comment and those whose decoded text is blank.
   */
  method ExtractWithPattern(content: string, pattern: Pattern, commentPatterns: seq<Pattern>)
    returns (entries: seq<Entry>)
    ensures entries == PatternEntries(content, pattern, commentPatterns)
  {
    var ranges := GetCommentRanges(content, commentPatterns);
    var ms := FindAll(pattern, content);
    entries := KeepMatches(content, ms, ranges);
  }

  /**
   * The matching loop of `extract_with_pattern` (and of
   * `extract_custom_property`, which repeats it): skip a match that starts
   * in a comment, decode its group and keep it unless blank.
   */
  method KeepMatches(content: string, ms: seq<Match>, ranges: seq<Range>) returns (entries: seq<Entry>)
    requires AllFit(ms, content)
    ensures entries == KeptEntries(content, ms, ranges)
  {
    entries := [];
    for k := 0 to |ms|
      invariant entries == KeptEntries(content, ms[..k], ranges)
    {
      assert ms[..k + 1][..k] == ms[..k];
      var found := KeepMatch(content, ms[k], ranges);
      entries := entries + found;
    }
    assert ms[..|ms|] == ms;
  }

  /** One turn of the matching loop: `continue` in a comment, else decode and keep unless blank. */
  method KeepMatch(content: string, m: Match, ranges: seq<Range>) returns (found: seq<Entry>)
    requires Fits(m, content)
    ensures found == EntryOf(content, m, ranges)
  {
    if IsInComments(m.start, ranges) {
      return [];
    }
    var line := LineNumber(content, m.start);
    var text := DecodeLiteral(GroupText(content, m));
    if text != [] && Strip(text) != [] {
      found := [Entry(line, text)];
    } else {
      found := [];
    }
  }

  // ---------------------------------------------------------------------
  // The recursive JSON walker

  /** What a processor appends for one node at one nesting level. */
  type Processor = (Json, int) -> seq<Entry>

  /**
   * `process_nested_objects`: the processor's output for the node, then,
   * one level deeper, the walks of its container children in order.
   */
  function Walk(data: Json, proc: Processor, level: int): seq<Entry>
    decreases data, 1
  {
    proc(data, level) + Children(data, proc, level + 1)
  }

  /** The walks of the container children of `data` at `level`. */
  function Children(data: Json, proc: Processor, level: int): seq<Entry>
    decreases data, 0
  {
    match data
    case JObj(members) => WalkMembers(data, members, proc, level)
    case JArr(items) => WalkItems(data, items, proc, level)
    case _ => []
  }

  function WalkMembers(ghost parent: Json, members: seq<(string, Json)>, proc: Processor, level: int): seq<Entry>
    requires parent.JObj? && members <= parent.members
    decreases parent, 0, |members|
  {
    if members == [] then []
    else
      var v := members[|members| - 1].1;
      assert members[|members| - 1] in parent.members;
      WalkMembers(parent, members[..|members| - 1], proc, level)
      + (if IsContainer(v) then Walk(v, proc, level) else [])
  }

  function WalkItems(ghost parent: Json, items: seq<Json>, proc: Processor, level: int): seq<Entry>
    requires parent.JArr? && items <= parent.items
    decreases parent, 0, |items|
  {
    if items == [] then []
    else
      var v := items[|items| - 1];
      assert v in parent.items;
      WalkItems(parent, items[..|items| - 1], proc, level)
      + (if IsContainer(v) then Walk(v, proc, level) else [])
  }

  /** An object with one member: its own output, then the walk of that member's value if it is a container. */
  lemma WalkSingleMember(key: string, v: Json, proc: Processor, level: int)
    ensures Walk(JObj([(key, v)]), proc, level)
         == proc(JObj([(key, v)]), level) + (if IsContainer(v) then Walk(v, proc, level + 1) else [])
  {
    var data := JObj([(key, v)]);
    var tail := if IsContainer(v) then Walk(v, proc, level + 1) else [];
    assert data.members[..0] == [];
    assert WalkMembers(data, data.members, proc, level + 1) == WalkMembers(data, [], proc, level + 1) + tail;
    assert [] + tail == tail;
  }

  /** A list with one item: its own output, then the walk of that item if it is a container. */
  lemma WalkSingleItem(v: Json, proc: Processor, level: int)
    ensures Walk(JArr([v]), proc, level)
         == proc(JArr([v]), level) + (if IsContainer(v) then Walk(v, proc, level + 1) else [])
  {
    var data := JArr([v]);
    var tail := if IsContainer(v) then Walk(v, proc, level + 1) else [];
    assert data.items[..0] == [];
    assert WalkItems(data, data.items, proc, level + 1) == WalkItems(data, [], proc, level + 1) + tail;
    assert [] + tail == tail;
  }

  /**
   * `process_nested_objects` as the source runs it: the processor and the
   * recursive calls all append to the one `result` list passed down, which
   * is returned.
   */
  method ProcessNestedObjects(data: Json, proc: Processor, level: int, result: seq<Entry>)
    returns (out: seq<Entry>)
    ensures out == result + Walk(data, proc, level)
    decreases data, 1
  {
    out := result + proc(data, level);
    match data {
      case JObj(members) =>
        out := ProcessMembers(data, members, proc, level + 1, out);
      case JArr(items) =>
        out := ProcessItems(data, items, proc, level + 1, out);
      case _ =>
        assert Children(data, proc, level + 1) == [];
    }
    AppendAssoc(result, proc(data, level), Children(data, proc, level + 1));
  }

  /** The loop of `process_nested_objects` over an object's values: recurse into each container value. */
  method ProcessMembers(ghost parent: Json, members: seq<(string, Json)>, proc: Processor, level: int, result: seq<Entry>)
    returns (out: seq<Entry>)
    requires parent.JObj? && members <= parent.members
    ensures out == result + WalkMembers(parent, members, proc, level)
    decreases parent, 0
  {
    out := result;
    for k := 0 to |members|
      invariant out == result + WalkMembers(parent, members[..k], proc, level)
    {
      assert members[..k + 1][..k] == members[..k];
      var v := members[k].1;
      assert members[k] in parent.members;
      if IsContainer(v) {
        AppendAssoc(result, WalkMembers(parent, members[..k], proc, level), Walk(v, proc, level));
        out := ProcessNestedObjects(v, proc, level, out);
      } else {
        assert WalkMembers(parent, members[..k + 1], proc, level) == WalkMembers(parent, members[..k], proc, level) + [];
      }
    }
    assert members[..|members|] == members;
  }

  /** The loop of `process_nested_objects` over a list's items: recurse into each container item. */
  method ProcessItems(ghost parent: Json, items: seq<Json>, proc: Processor, level: int, result: seq<Entry>)
    returns (out: seq<Entry>)
    requires parent.JArr? && items <= parent.items
    ensures out == result + WalkItems(parent, items, proc, level)
    decreases parent, 0
  {
    out := result;
    for k := 0 to |items|
      invariant out == result + WalkItems(parent, items[..k], proc, level)
    {
      assert items[..k + 1][..k] == items[..k];
      var v := items[k];
      assert v in parent.items;
      if IsContainer(v) {
        AppendAssoc(result, WalkItems(parent, items[..k], proc, level), Walk(v, proc, level));
        out := ProcessNestedObjects(v, proc, level, out);
      } else {
        assert WalkItems(parent, items[..k + 1], proc, level) == WalkItems(parent, items[..k], proc, level) + [];
      }
    }
    assert items[..|items|] == items;
  }

  // ---------------------------------------------------------------------
  // What the walk visits

  /**
   * The node `n` lies at depth `d` of the tree rooted at `data` when the
   * root sits at depth `level`: it is the root itself, or it lies one level
   * deeper within some container value of an object or container item of a
   * list.
   */
  ghost predicate Reaches(data: Json, level: int, n: Json, d: int)
    decreases data
  {
    (n == data && d == level)
    || (data.JObj? && exists kv :: kv in data.members && IsContainer(kv.1) && Reaches(kv.1, level + 1, n, d))
    || (data.JArr? && exists v :: v in data.items && IsContainer(v) && Reaches(v, level + 1, n, d))
  }

  /**
   * The nodes handed to the processor, each with its level, in the order
   * `process_nested_objects` visits them: the node, then the visits of its
   * container children one level deeper, child by child.
   */
  ghost function Visits(data: Json, level: int): (r: seq<(Json, int)>)
    ensures r != [] && r[0] == (data, level)
    ensures forall k :: 0 <= k < |r| ==> Reaches(data, level, r[k].0, r[k].1)
    decreases data, 1
  {
    [(data, level)] + ChildVisits(data, level + 1)
  }

  /** The visits of the container children of `data`, which sit at `level`. */
  ghost function ChildVisits(data: Json, level: int): (r: seq<(Json, int)>)
    ensures forall k :: 0 <= k < |r| ==> Reaches(data, level - 1, r[k].0, r[k].1)
    decreases data, 0
  {
    match data
    case JObj(members) => MemberVisits(data, members, level)
    case JArr(items) => ItemVisits(data, items, level)
    case _ => []
  }

  ghost function MemberVisits(parent: Json, members: seq<(string, Json)>, level: int): (r: seq<(Json, int)>)
    requires parent.JObj? && members <= parent.members
    ensures forall k :: 0 <= k < |r| ==> Reaches(parent, level - 1, r[k].0, r[k].1)
    decreases parent, 0, |members|
  {
    if members == [] then []
    else
      var kv := members[|members| - 1];
      assert kv in parent.members;
      var init := MemberVisits(parent, members[..|members| - 1], level);
      var last := if IsContainer(kv.1) then Visits(kv.1, level) else [];
      assert forall k :: 0 <= k < |last| ==> Reaches(kv.1, level, last[k].0, last[k].1);
      init + last
  }

  ghost function ItemVisits(parent: Json, items: seq<Json>, level: int): (r: seq<(Json, int)>)
    requires parent.JArr? && items <= parent.items
    ensures forall k :: 0 <= k < |r| ==> Reaches(parent, level - 1, r[k].0, r[k].1)
    decreases parent, 0, |items|
  {
    if items == [] then []
    else
      var v := items[|items| - 1];
      assert v in parent.items;
      var init := ItemVisits(parent, items[..|items| - 1], level);
      var last := if IsContainer(v) then Visits(v, level) else [];
      assert forall k :: 0 <= k < |last| ==> Reaches(v, level, last[k].0, last[k].1);
      init + last
  }

  /** The processor's outputs for the visits, in visiting order. */
  ghost function Outputs(proc: Processor, vs: seq<(Json, int)>): seq<Entry>
  {
    if vs == [] then [] else Outputs(proc, vs[..|vs| - 1]) + proc(vs[|vs| - 1].0, vs[|vs| - 1].1)
  }

  /** Outputs of `a + b` are those of `a`, then those of `b`. */
  lemma {:induction false} OutputsAppend(proc: Processor, a: seq<(Json, int)>, b: seq<(Json, int)>)
    ensures Outputs(proc, a + b) == Outputs(proc, a) + Outputs(proc, b)
    decreases |b|
  {
    if b == [] {
      assert a + b == a;
    } else {
      var b' := b[..|b| - 1];
      assert (a + b)[..|a + b| - 1] == a + b';
      OutputsAppend(proc, a, b');
      AppendAssoc(Outputs(proc, a), Outputs(proc, b'), proc(b[|b| - 1].0, b[|b| - 1].1));
    }
  }

  /** An entry is among the outputs iff the processor produces it for one of the visits. */
  lemma {:induction false} OutputsMembers(proc: Processor, vs: seq<(Json, int)>, e: Entry)
    ensures e in Outputs(proc, vs) <==> exists k :: 0 <= k < |vs| && e in proc(vs[k].0, vs[k].1)
    decreases |vs|
  {
    if vs != [] {
      var init := vs[..|vs| - 1];
      OutputsMembers(proc, init, e);
      if e in Outputs(proc, init) {
        var k :| 0 <= k < |init| && e in proc(init[k].0, init[k].1);
        assert vs[k] == init[k];
      }
      if k :| 0 <= k < |vs| && e in proc(vs[k].0, vs[k].1) {
        if k < |init| {
          assert vs[k] == init[k];
        }
      }
    }
  }

  /**
   * `process_nested_objects` appends exactly the processor's outputs over
   * the pre-order visits of the tree.
   */
  lemma {:induction false} WalkIsOutputs(data: Json, proc: Processor, level: int)
    ensures Walk(data, proc, level) == Outputs(proc, Visits(data, level))
    decreases data, 1
  {
    ChildrenIsOutputs(data, proc, level + 1);
    OutputsAppend(proc, [(data, level)], ChildVisits(data, level + 1));
    assert [(data, level)][..0] == [];
  }

  lemma {:induction false} ChildrenIsOutputs(data: Json, proc: Processor, level: int)
    ensures Children(data, proc, level) == Outputs(proc, ChildVisits(data, level))
    decreases data, 0
  {
    match data
    case JObj(members) => MembersIsOutputs(data, members, proc, level);
    case JArr(items) => ItemsIsOutputs(data, items, proc, level);
    case _ =>
  }

  lemma {:induction false} MembersIsOutputs(parent: Json, members: seq<(string, Json)>, proc: Processor, level: int)
    requires parent.JObj? && members <= parent.members
    ensures WalkMembers(parent, members, proc, level) == Outputs(proc, MemberVisits(parent, members, level))
    decreases parent, 0, |members|
  {
    if members != [] {
      var kv := members[|members| - 1];
      var init := members[..|members| - 1];
      assert kv in parent.members;
      MembersIsOutputs(parent, init, proc, level);
      if IsContainer(kv.1) {
        WalkIsOutputs(kv.1, proc, level);
        OutputsAppend(proc, MemberVisits(parent, init, level), Visits(kv.1, level));
      } else {
        OutputsAppend(proc, MemberVisits(parent, init, level), []);
      }
    }
  }

  lemma {:induction false} ItemsIsOutputs(parent: Json, items: seq<Json>, proc: Processor, level: int)
    requires parent.JArr? && items <= parent.items
    ensures WalkItems(parent, items, proc, level) == Outputs(proc, ItemVisits(parent, items, level))
    decreases parent, 0, |items|
  {
    if items != [] {
      var v := items[|items| - 1];
      var init := items[..|items| - 1];
      assert v in parent.items;
      ItemsIsOutputs(parent, init, proc, level);
      if IsContainer(v) {
        WalkIsOutputs(v, proc, level);
        OutputsAppend(proc, ItemVisits(parent, init, level), Visits(v, level));
      } else {
        OutputsAppend(proc, ItemVisits(parent, init, level), []);
      }
    }
  }

  /**
   * Every node of the tree is visited, at its depth: whatever `Reaches`
   * finds is among the visits (the converse is the contract of `Visits`).
   */
  lemma {:induction false} ReachedIsVisited(data: Json, level: int, n: Json, d: int)
    requires Reaches(data, level, n, d)
    ensures (n, d) in Visits(data, level)
    decreases data
  {
    if !(n == data && d == level) {
      if data.JObj? && exists kv :: kv in data.members && IsContainer(kv.1) && Reaches(kv.1, level + 1, n, d) {
        var kv :| kv in data.members && IsContainer(kv.1) && Reaches(kv.1, level + 1, n, d);
        ReachedIsVisited(kv.1, level + 1, n, d);
        var i :| 0 <= i < |data.members| && data.members[i] == kv;
        MemberVisitsContain(data, data.members, level + 1, i);
      } else {
        var v :| v in data.items && IsContainer(v) && Reaches(v, level + 1, n, d);
        ReachedIsVisited(v, level + 1, n, d);
        var i :| 0 <= i < |data.items| && data.items[i] == v;
        ItemVisitsContain(data, data.items, level + 1, i);
      }
    }
  }

  /** The visits of a container member's value are among the visits of its object's children. */
  lemma {:induction false} MemberVisitsContain(parent: Json, members: seq<(string, Json)>, level: int, i: nat)
    requires parent.JObj? && members <= parent.members && i < |members| && IsContainer(members[i].1)
    ensures forall x :: x in Visits(members[i].1, level) ==> x in MemberVisits(parent, members, level)
    decreases |members|
  {
    var init := members[..|members| - 1];
    if i < |init| {
      assert init[i] == members[i];
      MemberVisitsContain(parent, init, level, i);
    }
  }

  /** The visits of a container item are among the visits of its list's children. */
  lemma {:induction false} ItemVisitsContain(parent: Json, items: seq<Json>, level: int, i: nat)
    requires parent.JArr? && items <= parent.items && i < |items| && IsContainer(items[i])
    ensures forall x :: x in Visits(items[i], level) ==> x in ItemVisits(parent, items, level)
    decreases |items|
  {
    var init := items[..|items| - 1];
    if i < |init| {
      assert init[i] == items[i];
      ItemVisitsContain(parent, init, level, i);
    }
  }

  /**
   * All inputs: an entry is appended by `process_nested_objects` iff the
   * processor produces it for some node of the tree at that node's depth.
   */
  lemma WalkReports(data: Json, proc: Processor, level: int, e: Entry)
    ensures e in Walk(data, proc, level) <==> exists n, d :: Reaches(data, level, n, d) && e in proc(n, d)
  {
    var vs := Visits(data, level);
    WalkIsOutputs(data, proc, level);
    OutputsMembers(proc, vs, e);
    if e in Walk(data, proc, level) {
      var k :| 0 <= k < |vs| && e in proc(vs[k].0, vs[k].1);
      assert Reaches(data, level, vs[k].0, vs[k].1);
    }
    if exists n, d :: Reaches(data, level, n, d) && e in proc(n, d) {
      var n, d :| Reaches(data, level, n, d) && e in proc(n, d);
      ReachedIsVisited(data, level, n, d);
      var k :| 0 <= k < |vs| && vs[k] == (n, d);
    }
  }
}
