/**
 * core/extractors_impl/rpy_properties.py: the `renpy.notify` rule and the
 * bracketed-array rule, which looks for configured `"key":` strings,
 * depth-matches the next `[ … ]` span and emits every non-blank literal
 * inside it.
 */
module RpyProperties {
  import opened Wrappers
  import opened Text
  import opened Patterns
  import opened JsonData
  import opened Common
  import opened Seqs

  // ---------------------------------------------------------------------
  // renpy.notify

  /** `extract_renpy_notify`: the generic extractor with the notify pattern and both comment patterns. */
  method ExtractRenpyNotify(content: string) returns (entries: seq<Entry>)
    ensures entries == PatternEntries(content, RenpyNotifyPattern, CommentPatterns)
    ensures AllFromContent(content, entries)
  {
    entries := ExtractWithPattern(content, RenpyNotifyPattern, CommentPatterns);
    KeptEntriesFromContent(content, FindAll(RenpyNotifyPattern, content), CommentRanges(content, CommentPatterns));
  }

  // ---------------------------------------------------------------------
  // Key configuration

  /** The keys of a `{name: enabled}` object whose flag is truthy, in order. */
  function EnabledKeys(flags: seq<(string, Json)>): seq<string>
  {
    if flags == [] then []
    else (if Truthy(flags[0].1) then [flags[0].0] else []) + EnabledKeys(flags[1..])
  }

  /** A key is enabled exactly when some entry names it with a truthy flag. */
  lemma {:induction false} EnabledKeysMembers(flags: seq<(string, Json)>, k: string)
    ensures k in EnabledKeys(flags) <==> exists i :: 0 <= i < |flags| && flags[i].0 == k && Truthy(flags[i].1)
  {
    if flags != [] {
      EnabledKeysMembers(flags[1..], k);
      if exists i :: 0 <= i < |flags| && flags[i].0 == k && Truthy(flags[i].1) {
        var i :| 0 <= i < |flags| && flags[i].0 == k && Truthy(flags[i].1);
        if i > 0 {
          assert flags[1..][i - 1] == flags[i];
        }
      }
      if exists i :: 0 <= i < |flags[1..]| && flags[1..][i].0 == k && Truthy(flags[1..][i].1) {
        var i :| 0 <= i < |flags[1..]| && flags[1..][i].0 == k && Truthy(flags[1..][i].1);
        assert flags[i + 1] == flags[1..][i];
      }
    }
  }

  /**
   * The legacy list form: its strings in order, up to the first item that
   * is not a string (`key.replace` raises there, and the surrounding
   * `try` keeps the keys formatted so far).
   */
  function LeadingStrings(items: seq<Json>): (keys: seq<string>)
    ensures |keys| <= |items|
    ensures forall i :: 0 <= i < |keys| ==> items[i] == JStr(keys[i])
    ensures |keys| < |items| ==> !items[|keys|].JStr?
  {
    if items == [] || !items[0].JStr? then []
    else [items[0].s] + LeadingStrings(items[1..])
  }

  /** Iterating a string yields its characters, each a one-character key. */
  function Characters(s: string): (keys: seq<string>)
    ensures |keys| == |s| && forall i :: 0 <= i < |s| ==> keys[i] == [s[i]]
  {
    if s == [] then [] else [[s[0]]] + Characters(s[1..])
  }

  /**
   * The key names read from `dict_keys.json` (None when the file is
   * missing or does not parse, which the `try` turns into no keys): the
   * enabled keys of a `key_names` object, else the items of a `key_names`
   * list. A non-object document, a missing `key_names` or one that cannot
   * be iterated gives no keys.
   */
  function KeyNames(config: Option<Json>): seq<string> {
    if config.None? || !config.value.JObj? then []
    else
      match Get(config.value.members, "key_names")
      case Some(JObj(flags)) => EnabledKeys(flags)
      case Some(JArr(items)) => LeadingStrings(items)
      case Some(JStr(s)) => Characters(s)
      case _ => []
  }

  /** With the object form, exactly the keys whose flag is truthy are used. */
  lemma KeyNamesFromFlags(members: seq<(string, Json)>, flags: seq<(string, Json)>, k: string)
    requires Get(members, "key_names") == Some(JObj(flags))
    ensures k in KeyNames(Some(JObj(members))) <==> exists i :: 0 <= i < |flags| && flags[i].0 == k && Truthy(flags[i].1)
  {
    EnabledKeysMembers(flags, k);
  }

  /** With the legacy list form of strings only, every key is used, in order. */
  lemma KeyNamesFromList(members: seq<(string, Json)>, names: seq<string>)
    requires Get(members, "key_names") == Some(JArr(seq(|names|, i requires 0 <= i < |names| => JStr(names[i]))))
    ensures KeyNames(Some(JObj(members))) == names
  {
    var items := seq(|names|, i requires 0 <= i < |names| => JStr(names[i]));
    var keys := LeadingStrings(items);
    assert |keys| == |names|;
  }

  /** The search string for a key: `"key":` with the key's double quotes backslash-escaped. */
  function FormatKey(key: string): (r: string)
    ensures |r| >= 3 && r[0] == '"' && r[|r| - 2..] == "\":"
    ensures UnescapeQuotes(r[1..|r| - 2]) == key
  {
    var r := "\"" + EscapeQuotes(key) + "\":";
    assert r[1..|r| - 2] == EscapeQuotes(key);
    EscapeQuotesRoundTrip(key);
    r
  }

  /** Different keys never share a search string. */
  lemma FormatKeyInjective(k1: string, k2: string)
    requires FormatKey(k1) == FormatKey(k2)
    ensures k1 == k2
  {
    var r := FormatKey(k1);
    assert UnescapeQuotes(r[1..|r| - 2]) == k1;
  }

  /** `key_starts`: the search strings of the configured keys, in order. */
  function KeyStarts(names: seq<string>): (starts: seq<string>)
    ensures |starts| == |names|
    ensures forall i :: 0 <= i < |names| ==> starts[i] == FormatKey(names[i])
  {
    if names == [] then [] else KeyStarts(names[..|names| - 1]) + [FormatKey(names[|names| - 1])]
  }

  // ---------------------------------------------------------------------
  // Bracket matching

  /** What one character does to the depth. */
  function Delta(c: char): int {
    if c == '[' then 1 else if c == ']' then -1 else 0
  }

  /** The bracket depth after reading `content[from..to]` character by character, starting from `depth`. */
  function Nesting(content: string, from: nat, to: nat, depth: int): int
    requires from <= to <= |content|
    decreases |content| - from
  {
    if from == to then depth else Nesting(content, from + 1, to, depth + Delta(content[from]))
  }

  /** The depth is the starting depth plus the opening brackets read minus the closing ones. */
  lemma {:induction false} NestingCounts(content: string, from: nat, to: nat, depth: int)
    requires from <= to <= |content|
    ensures Nesting(content, from, to, depth)
         == depth + CountChar(content[from..to], '[') - CountChar(content[from..to], ']')
    decreases |content| - from
  {
    if from < to {
      NestingCounts(content, from + 1, to, depth + Delta(content[from]));
      assert content[from..to] == [content[from]] + content[from + 1..to];
      CountCharAppend([content[from]], content[from + 1..to], '[');
      CountCharAppend([content[from]], content[from + 1..to], ']');
    } else {
      assert content[from..to] == [];
    }
  }

  /**
   * The scan of the inner `while` loop: from index `i` at depth `depth`,
   * the index of the `]` that brings the depth to 0, or None at the end
   * of the content.
   */
  function BracketEnd(content: string, i: nat, depth: int): (r: Option<nat>)
    requires i <= |content|
    ensures r.Some? ==> i <= r.value < |content| && content[r.value] == ']'
    decreases |content| - i
  {
    if i == |content| then None
    else if content[i] == '[' then BracketEnd(content, i + 1, depth + 1)
    else if content[i] == ']' then
      if depth - 1 == 0 then Some(i) else BracketEnd(content, i + 1, depth - 1)
    else BracketEnd(content, i + 1, depth)
  }

  /**
   * The `]` at `e` closes the bracket opened just before `from`: reading
   * up to and including it brings the depth to 0, and the depth is
   * positive before it.
   */
  predicate ClosesAt(content: string, from: nat, depth: int, e: nat)
    requires from <= |content|
  {
    from <= e < |content| && content[e] == ']' && Nesting(content, from, e + 1, depth) == 0
    && forall k :: from <= k <= e ==> Nesting(content, from, k, depth) > 0
  }

  /** The depth stays positive to the end of the content: the bracket is never closed. */
  predicate NeverCloses(content: string, from: nat, depth: int)
    requires from <= |content|
  {
    forall k :: from <= k <= |content| ==> Nesting(content, from, k, depth) > 0
  }

  /** When the scan finds a `]`, it is the first position after which the depth returns to 0. */
  lemma {:induction false} BracketEndCloses(content: string, i: nat, depth: int)
    requires i <= |content| && depth > 0 && BracketEnd(content, i, depth).Some?
    ensures ClosesAt(content, i, depth, BracketEnd(content, i, depth).value)
    decreases |content| - i
  {
    var d' := depth + Delta(content[i]);
    if !(content[i] == ']' && depth - 1 == 0) {
      BracketEndCloses(content, i + 1, d');
      var e := BracketEnd(content, i, depth).value;
      forall k | i <= k <= e ensures Nesting(content, i, k, depth) > 0 {
        if k > i {
          assert Nesting(content, i, k, depth) == Nesting(content, i + 1, k, d');
        }
      }
    }
  }

  /** When the scan reaches the end, the depth stays positive all the way. */
  lemma {:induction false} BracketEndNeverCloses(content: string, i: nat, depth: int)
    requires i <= |content| && depth > 0 && BracketEnd(content, i, depth).None?
    ensures NeverCloses(content, i, depth)
    decreases |content| - i
  {
    if i < |content| {
      var d' := depth + Delta(content[i]);
      BracketEndNeverCloses(content, i + 1, d');
      forall k | i <= k <= |content| ensures Nesting(content, i, k, depth) > 0 {
        if k > i {
          assert Nesting(content, i, k, depth) == Nesting(content, i + 1, k, d');
        }
      }
    }
  }

  /**
   * The inner `while` loop of `extract_dict_keys`: from the `[` at
   * `bracketStart`, track the depth character by character and stop at
   * the `]` that closes it.
   */
  method FindMatchingBracket(content: string, bracketStart: nat) returns (bracketEnd: Option<nat>)
    requires bracketStart < |content|
    ensures bracketEnd == BracketEnd(content, bracketStart + 1, 1)
  {
    var depth := 1;
    var i := bracketStart + 1;
    bracketEnd := None;
    while i < |content| && depth > 0
      invariant bracketStart + 1 <= i <= |content| && depth > 0
      invariant BracketEnd(content, i, depth) == BracketEnd(content, bracketStart + 1, 1)
      decreases |content| - i
    {
      if content[i] == '[' {
        depth := depth + 1;
      } else if content[i] == ']' {
        depth := depth - 1;
        if depth == 0 {
          bracketEnd := Some(i);
          break;
        }
      }
      i := i + 1;
    }
  }

  // ---------------------------------------------------------------------
  // The scan for one key

  /** The non-blank literals found in `inner == content[off..]`, each with the line of its absolute offset. */
  function LiteralEntries(content: string, off: nat, inner: string, ms: seq<Match>): seq<Entry>
    requires AllFit(ms, inner)
  {
    if ms == [] then []
    else LiteralEntries(content, off, inner, ms[..|ms| - 1]) + LiteralEntry(content, off, inner, ms[|ms| - 1])
  }

  /** What one literal of the span contributes: its decoded text, unless blank. */
  function LiteralEntry(content: string, off: nat, inner: string, m: Match): seq<Entry>
    requires Fits(m, inner)
  {
    KeptEntry(LineNumber(content, off + m.start), DecodeLiteral(GroupText(inner, m)))
  }

  /** Extending the matches by one appends that literal's contribution. */
  lemma LiteralEntriesStep(content: string, off: nat, inner: string, ms: seq<Match>, t: nat)
    requires AllFit(ms, inner) && t < |ms|
    ensures LiteralEntries(content, off, inner, ms[..t + 1])
         == LiteralEntries(content, off, inner, ms[..t]) + LiteralEntry(content, off, inner, ms[t])
  {
    assert ms[..t + 1][..t] == ms[..t];
  }

  /**
   * The non-blank literals of `inner == content[off..]` from index `i`,
   * as `re.finditer(STRING_PATTERN, inner)` reports them: at each index
   * the first end of a literal opened there, else the next index.
   */
  function SpanLiterals(content: string, off: nat, inner: string, i: nat): seq<Entry>
    decreases |inner| - i
  {
    if i >= |inner| then []
    else
      var ends := LiteralEnds(inner, i);
      if ends == [] then SpanLiterals(content, off, inner, i + 1)
      else LiteralEntry(content, off, inner, Match(i, ends[0], i, ends[0])) + SpanLiterals(content, off, inner, ends[0])
  }

  /** The literals strictly between the brackets at `b` and `e`. */
  function SpanEntries(content: string, b: nat, e: nat): seq<Entry>
  {
    SpanLiterals(content, b + 1, Slice(content, b + 1, e), 0)
  }

  /** Prepending a match prepends that literal's contribution. */
  lemma {:induction false} LiteralEntriesCons(content: string, off: nat, inner: string, m: Match, ms: seq<Match>)
    requires Fits(m, inner) && AllFit(ms, inner)
    ensures AllFit([m] + ms, inner)
    ensures LiteralEntries(content, off, inner, [m] + ms)
         == LiteralEntry(content, off, inner, m) + LiteralEntries(content, off, inner, ms)
    decreases |ms|
  {
    var mms := [m] + ms;
    assert forall k :: 0 <= k < |mms| ==> Fits(mms[k], inner) by {
      forall k | 0 <= k < |mms| ensures Fits(mms[k], inner) {
        if k > 0 {
          assert mms[k] == ms[k - 1];
        }
      }
    }
    if ms != [] {
      var init := ms[..|ms| - 1];
      assert AllFit(init, inner);
      LiteralEntriesCons(content, off, inner, m, init);
      assert mms[..|mms| - 1] == [m] + init;
      AppendAssoc(LiteralEntry(content, off, inner, m), LiteralEntries(content, off, inner, init),
                  LiteralEntry(content, off, inner, ms[|ms| - 1]));
    } else {
      assert mms[..0] == [];
    }
  }

  /** Walking the matches of `re.finditer` from `i` emits exactly the span's literals from `i`. */
  lemma {:induction false} LiteralEntriesOfScan(content: string, off: nat, inner: string, i: nat)
    ensures AllFit(Scan(StringLiteral, inner, i), inner)
    ensures LiteralEntries(content, off, inner, Scan(StringLiteral, inner, i)) == SpanLiterals(content, off, inner, i)
    decreases |inner| - i
  {
    if i < |inner| {
      var ends := LiteralEnds(inner, i);
      if ends == [] {
        LiteralEntriesOfScan(content, off, inner, i + 1);
      } else {
        var m := Match(i, ends[0], i, ends[0]);
        assert MatchAt(StringLiteral, inner, i) == Some(m);
        LiteralEntriesOfScan(content, off, inner, ends[0]);
        LiteralEntriesCons(content, off, inner, m, Scan(StringLiteral, inner, ends[0]));
      }
    }
  }

  /** What one turn of the `while True` loop does. */
  datatype Step =
    | Done                         // no further occurrence of the key: `break`
    | Skip(next: nat)              // occurrence skipped: resume just past the key
    | Take(open: nat, close: nat)  // the bracket pair to read; resume just past the `]`

  /**
   * One turn of the loop from `start`: an occurrence in a comment, one
   * with no `[` after it, or one whose bracket never closes is skipped;
   * otherwise the bracket pair after it is taken.
   */
  function KeyStep(content: string, key: string, ranges: seq<Range>, start: nat): (r: Step)
    requires key != [] && start <= |content|
    ensures r.Skip? ==> start < r.next <= |content|
    ensures r.Take? ==> start <= r.open < r.close < |content|
  {
    match Find(content, key, start)
    case None => Done
    case Some(pos) =>
      if IsInComments(pos, ranges) then Skip(pos + |key|)
      else
        match Find(content, "[", pos)
        case None => Skip(pos + |key|)
        case Some(b) =>
          match BracketEnd(content, b + 1, 1)
          case None => Skip(pos + |key|)
          case Some(e) => Take(b, e)
  }

  /**
   * What the scan for one search string emits from `start`, after the
   * entries `acc` already emitted: the literals of each bracket pair taken,
   * in order.
   */
  function KeyScanFrom(content: string, key: string, ranges: seq<Range>, start: nat, acc: seq<Entry>): seq<Entry>
    requires key != [] && start <= |content|
    decreases |content| - start
  {
    match KeyStep(content, key, ranges, start)
    case Done => acc
    case Skip(next) => KeyScanFrom(content, key, ranges, next, acc)
    case Take(b, e) => KeyScanFrom(content, key, ranges, e + 1, acc + SpanEntries(content, b, e))
  }

  /** What the scan for one search string emits. */
  function KeyScan(content: string, key: string, ranges: seq<Range>): seq<Entry>
    requires key != []
  {
    KeyScanFrom(content, key, ranges, 0, [])
  }

  /** The scans of each search string, concatenated in order. */
  function AllKeyScans(content: string, keys: seq<string>, ranges: seq<Range>): seq<Entry>
    requires forall i :: 0 <= i < |keys| ==> keys[i] != []
  {
    if keys == [] then []
    else AllKeyScans(content, keys[..|keys| - 1], ranges) + KeyScan(content, keys[|keys| - 1], ranges)
  }

  /** What `extract_dict_keys` returns for a file, given the parsed key configuration. */
  function DictKeyEntries(content: string, config: Option<Json>): seq<Entry>
  {
    var starts := KeyStarts(KeyNames(config));
    AllKeyScans(content, starts, CommentRanges(content, CommentPatterns))
  }

  /**
   * `extract_dict_keys`: format the configured keys, then for each search
   * string run the scan loop with a cursor that strictly advances.
   */
  method ExtractDictKeys(content: string, config: Option<Json>) returns (entries: seq<Entry>)
    ensures entries == DictKeyEntries(content, config)
  {
    var ranges := GetCommentRanges(content, CommentPatterns);
    var names := KeyNames(config);
    var keyStarts := FormatKeys(names);
    entries := ScanKeys(content, keyStarts, ranges);
  }

  /** The loop that turns each key name into its search string `"<key>":`. */
  method FormatKeys(names: seq<string>) returns (keyStarts: seq<string>)
    ensures keyStarts == KeyStarts(names)
  {
    keyStarts := [];
    for n := 0 to |names|
      invariant keyStarts == KeyStarts(names[..n])
    {
      keyStarts := keyStarts + [FormatKey(names[n])];
      assert names[..n + 1][..n] == names[..n];
    }
    assert names[..|names|] == names;
  }

  /** The outer `for` loop: the scans of each search string, concatenated in order. */
  method ScanKeys(content: string, keyStarts: seq<string>, ranges: seq<Range>) returns (entries: seq<Entry>)
    requires forall i :: 0 <= i < |keyStarts| ==> keyStarts[i] != []
    ensures entries == AllKeyScans(content, keyStarts, ranges)
  {
    entries := [];
    for k := 0 to |keyStarts|
      invariant entries == AllKeyScans(content, keyStarts[..k], ranges)
    {
      var found := ScanKey(content, keyStarts[k], ranges);
      entries := entries + found;
      assert keyStarts[..k + 1][..k] == keyStarts[..k];
    }
    assert keyStarts[..|keyStarts|] == keyStarts;
  }

  /**
   * The body of the `while True` loop of `extract_dict_keys` up to the
   * span extraction: find the key, skip it when it is in a comment, find
   * the next `[`, and match its bracket.
   */
  method NextStep(content: string, key: string, ranges: seq<Range>, startPos: nat) returns (step: Step)
    requires key != [] && startPos <= |content|
    ensures step == KeyStep(content, key, ranges, startPos)
  {
    var pos := Find(content, key, startPos);
    if pos.None? {
      return Done;
    }
    var p := pos.value;
    if IsInComments(p, ranges) {
      return Skip(p + |key|);
    }
    var bracketStart := Find(content, "[", p);
    if bracketStart.None? {
      return Skip(p + |key|);
    }
    var b := bracketStart.value;
    var bracketEnd := FindMatchingBracket(content, b);
    if bracketEnd.None? {
      return Skip(p + |key|);
    }
    step := Take(b, bracketEnd.value);
  }

  /** The scan loop for one search string: a cursor that strictly advances, emitting each taken span's literals. */
  method ScanKey(content: string, key: string, ranges: seq<Range>) returns (entries: seq<Entry>)
    requires key != []
    ensures entries == KeyScan(content, key, ranges)
  {
    entries := [];
    var startPos := 0;
    var done := false;
    while !done
      invariant startPos <= |content|
      invariant done ==> entries == KeyScan(content, key, ranges)
      invariant !done ==> KeyScanFrom(content, key, ranges, startPos, entries) == KeyScan(content, key, ranges)
      decreases |content| - startPos, !done
    {
      done, startPos, entries := ScanTurn(content, key, ranges, startPos, entries);
    }
  }

  /**
   * One turn of the `while True` loop from `startPos`, after the entries
   * already emitted: `break` at the end, `continue` past a skipped
   * occurrence, or emit the span's literals and resume past its `]`.
   */
  method ScanTurn(content: string, key: string, ranges: seq<Range>, startPos: nat, entries: seq<Entry>)
    returns (done: bool, next: nat, acc: seq<Entry>)
    requires key != [] && startPos <= |content|
    ensures next <= |content|
    ensures done ==> next == startPos && acc == KeyScanFrom(content, key, ranges, startPos, entries)
    ensures !done ==> startPos < next
    ensures !done ==> KeyScanFrom(content, key, ranges, next, acc) == KeyScanFrom(content, key, ranges, startPos, entries)
  {
    var step := NextStep(content, key, ranges, startPos);
    KeyScanFromStep(content, key, ranges, startPos, entries, step);
    if step.Done? {
      return true, startPos, entries;
    } else if step.Skip? {
      return false, step.next, entries;
    }
    var found := ExtractSpan(content, step.open, step.close);
    return false, step.close + 1, entries + found;
  }

  /** One unfolding of the scan from `start`, given the turn taken there. */
  lemma KeyScanFromStep(content: string, key: string, ranges: seq<Range>, start: nat, acc: seq<Entry>, step: Step)
    requires key != [] && start <= |content| && step == KeyStep(content, key, ranges, start)
    ensures KeyScanFrom(content, key, ranges, start, acc) ==
      match step
      case Done => acc
      case Skip(next) => KeyScanFrom(content, key, ranges, next, acc)
      case Take(b, e) => KeyScanFrom(content, key, ranges, e + 1, acc + SpanEntries(content, b, e))
  {
  }

  /** The inner `for` loop: every non-blank literal of the bracket span, with its absolute line. */
  method ExtractSpan(content: string, b: nat, e: nat) returns (entries: seq<Entry>)
    requires b < e <= |content|
    ensures entries == SpanEntries(content, b, e)
  {
    var inner := content[b + 1..e];
    SliceIsSlice(content, b + 1, e);
    var ms := FindAll(StringLiteral, inner);
    entries := EmitLiterals(content, b + 1, inner, ms);
    LiteralEntriesOfScan(content, b + 1, inner, 0);
  }

  /** The inner loop over the literal matches of a span. */
  method EmitLiterals(content: string, off: nat, inner: string, ms: seq<Match>) returns (entries: seq<Entry>)
    requires AllFit(ms, inner)
    ensures entries == LiteralEntries(content, off, inner, ms)
  {
    entries := [];
    for t := 0 to |ms|
      invariant entries == LiteralEntries(content, off, inner, ms[..t])
    {
      LiteralEntriesStep(content, off, inner, ms, t);
      var found := EmitLiteral(content, off, inner, ms[t]);
      entries := entries + found;
    }
    assert ms[..|ms|] == ms;
  }

  /** The body of the inner loop: decode one literal and keep it, with the line of its absolute offset, unless blank. */
  method EmitLiteral(content: string, off: nat, inner: string, m: Match) returns (found: seq<Entry>)
    requires Fits(m, inner)
    ensures found == LiteralEntry(content, off, inner, m)
  {
    var text := DecodeLiteral(GroupText(inner, m));
    var stringPos := off + m.start;
    if Keep(text) {
      found := [Entry(LineNumber(content, stringPos), text)];
    } else {
      found := [];
    }
  }

  // ---------------------------------------------------------------------
  // Properties of the scan

  /** From `start` on, a key every one of whose occurrences lies in a comment adds nothing. */
  lemma {:induction false} CommentedKeyAddsNothing(content: string, key: string, ranges: seq<Range>, start: nat, acc: seq<Entry>)
    requires key != [] && start <= |content|
    requires forall p :: start <= p && StartsAt(content, p, key) ==> IsInComments(p, ranges)
    ensures KeyScanFrom(content, key, ranges, start, acc) == acc
    decreases |content| - start
  {
    var st := CommentedKeySkipped(content, key, ranges, start);
    if st.Skip? {
      CommentedKeyAddsNothing(content, key, ranges, st.next, acc);
    }
  }

  /** Where the next occurrence of the key lies in a comment, the loop's turn takes nothing. */
  lemma CommentedKeySkipped(content: string, key: string, ranges: seq<Range>, start: nat) returns (st: Step)
    requires key != [] && start <= |content|
    requires forall p :: start <= p && StartsAt(content, p, key) ==> IsInComments(p, ranges)
    ensures st == KeyStep(content, key, ranges, start)
    ensures st.Done? || st.Skip?
  {
    FindSpec(content, key, start);
    st := KeyStep(content, key, ranges, start);
  }

  /** A key every one of whose occurrences lies in a comment yields nothing. */
  lemma CommentedKeyYieldsNothing(content: string, key: string, ranges: seq<Range>)
    requires key != []
    requires forall p: nat :: StartsAt(content, p, key) ==> IsInComments(p, ranges)
    ensures KeyScan(content, key, ranges) == []
  {
    CommentedKeyAddsNothing(content, key, ranges, 0, []);
  }

  /** From `start` on, without any `[` in the content, the scan adds nothing. */
  lemma {:induction false} NoBracketAddsNothing(content: string, key: string, ranges: seq<Range>, start: nat, acc: seq<Entry>)
    requires key != [] && start <= |content|
    requires forall j :: 0 <= j < |content| ==> content[j] != '['
    ensures KeyScanFrom(content, key, ranges, start, acc) == acc
    decreases |content| - start
  {
    match Find(content, key, start)
    case None =>
    case Some(pos) =>
      forall j | pos <= j ensures !StartsAt(content, j, "[") {
        if j < |content| {
          assert content[j] != '[';
        }
      }
      FindSpec(content, "[", pos);
      NoBracketAddsNothing(content, key, ranges, pos + |key|, acc);
  }

  /** Without any `[` in the content, the bracketed-array rule yields nothing. */
  lemma NoBracketYieldsNothing(content: string, key: string, ranges: seq<Range>)
    requires key != []
    requires forall j :: 0 <= j < |content| ==> content[j] != '['
    ensures KeyScan(content, key, ranges) == []
  {
    NoBracketAddsNothing(content, key, ranges, 0, []);
  }

  /** The literals of a list of matches are non-blank verbatim texts of the content with valid lines. */
  lemma {:induction false} LiteralEntriesFromContent(content: string, off: nat, inner: string, ms: seq<Match>)
    requires StartsAt(content, off, inner) && AllFit(ms, inner)
    ensures AllFromContent(content, LiteralEntries(content, off, inner, ms))
    decreases |ms|
  {
    if ms != [] {
      var init, m := ms[..|ms| - 1], ms[|ms| - 1];
      assert AllFit(init, inner);
      LiteralEntriesFromContent(content, off, inner, init);
      var a := LiteralTextInContent(content, off, inner, m);
      LiteralEntryFromContent(content, off, inner, m, GroupText(inner, m), a);
      AllFromContentAppend(content, LiteralEntries(content, off, inner, init), LiteralEntry(content, off, inner, m));
    }
  }

  /** A literal whose decoded text occurs in the content contributes only an entry from the content. */
  lemma LiteralEntryFromContent(content: string, off: nat, inner: string, m: Match, g: string, a: nat)
    requires Fits(m, inner) && g == GroupText(inner, m)
    requires StartsAt(content, a, DecodeLiteral(g))
    ensures AllFromContent(content, LiteralEntry(content, off, inner, m))
  {
    LineNumberInRange(content, off + m.start);
    KeptFromContent(content, LineNumber(content, off + m.start), DecodeLiteral(g), a);
  }

  /** The decoded literal of a match in `inner == content[off..]` is a verbatim piece of the whole content. */
  lemma LiteralTextInContent(content: string, off: nat, inner: string, m: Match) returns (a: nat)
    requires StartsAt(content, off, inner)
    requires Fits(m, inner)
    ensures StartsAt(content, a, DecodeLiteral(GroupText(inner, m)))
  {
    StartsAtIff(content, off, inner);
    var t := DecodedGroupInContent(inner, m);
    StartsAtSlice(content, off, off + |inner|, t, DecodeLiteral(GroupText(inner, m)));
    a := off + t;
  }

  /** Every entry of one bracket pair's literals is a non-blank verbatim text of the content with a valid line. */
  lemma SpanEntriesFromContent(content: string, b: nat, e: nat)
    requires b < e <= |content|
    ensures AllFromContent(content, SpanEntries(content, b, e))
  {
    var inner := content[b + 1..e];
    SliceIsSlice(content, b + 1, e);
    StartsAtIff(content, b + 1, inner);
    LiteralEntriesOfScan(content, b + 1, inner, 0);
    LiteralEntriesFromContent(content, b + 1, inner, Scan(StringLiteral, inner, 0));
  }

  /** The scan from `start` keeps "every entry is a non-blank verbatim text of the content with a valid line". */
  lemma {:induction false} KeyScanFromFromContent(content: string, key: string, ranges: seq<Range>, start: nat, acc: seq<Entry>)
    requires key != [] && start <= |content|
    requires AllFromContent(content, acc)
    ensures AllFromContent(content, KeyScanFrom(content, key, ranges, start, acc))
    decreases |content| - start
  {
    match KeyStep(content, key, ranges, start)
    case Done =>
    case Skip(next) =>
      KeyScanFromFromContent(content, key, ranges, next, acc);
    case Take(b, e) =>
      SpanEntriesFromContent(content, b, e);
      AllFromContentAppend(content, acc, SpanEntries(content, b, e));
      KeyScanFromFromContent(content, key, ranges, e + 1, acc + SpanEntries(content, b, e));
  }

  /** Every entry of the scan for one key is a non-blank verbatim text of the content with a valid line. */
  lemma KeyScanFromContent(content: string, key: string, ranges: seq<Range>)
    requires key != []
    ensures AllFromContent(content, KeyScan(content, key, ranges))
  {
    KeyScanFromFromContent(content, key, ranges, 0, []);
  }
}
