/**
 * core/factories/writer_factory.py: the writers that turn a file's entries
 * into a translation file, and the name -> writer map.
 *
 * The Ren'Py writer appends a `translate schinese strings:` block to the
 * destination; the JSON and CSV writers replace a sibling file with the
 * `.json` or `.csv` extension. Serialising with `json.dump` and
 * `csv.writer` is a parameter (`dump`, `formatCsv`). Any exception while
 * writing makes the writer return False.
 */
module WriterFactory {
  import opened Wrappers
  import opened Text
  import opened Patterns
  import opened JsonData
  import opened Common
  import opened FileSystem
  import opened Seqs

  // ---------------------------------------------------------------------
  // The Ren'Py text

  /** The block header `_write_renpy_translation` makes sure the file has. */
  const Header: string := "translate schinese strings:\n\n"

  /** The comment line that locates an entry: `    # {rel_path} line {line_num}`. */
  function LocatorLine(relPath: string, line: int): string {
    "    # " + relPath + " line " + IntToString(line) + "\n"
  }

  /** The `old` line of a single-line text: the text between double quotes, each `"` written `\"`. */
  function OldLine(text: string): string {
    "old \"" + EscapeQuotes(text) + "\""
  }

  /** A single-line entry: its `old` line, an empty `new` line and a blank line. */
  function SingleLineForm(text: string): string {
    "    " + OldLine(text) + "\n    new \"\"\n\n"
  }

  /** A text with a newline: written unescaped between triple quotes, with an empty triple-quoted `new`. */
  function MultiLineForm(text: string): string {
    "    old \"\"\"\n" + text + "\n    \"\"\"\n    new \"\"\"\n    \"\"\"\n\n"
  }

  /** The lines after the locator comment: the triple-quoted form when the text has a newline. */
  function EntryForm(text: string): string {
    if '\n' in text then MultiLineForm(text) else SingleLineForm(text)
  }

  /** What the loop body of `_write_renpy_translation` adds for one entry. */
  function EntryBlock(relPath: string, e: Entry): string {
    LocatorLine(relPath, e.line) + EntryForm(e.text)
  }

  /** The blocks of a list of entries, in order. */
  function Blocks(relPath: string, entries: seq<Entry>): string
  {
    if entries == [] then [] else Blocks(relPath, entries[..|entries| - 1]) + EntryBlock(relPath, entries[|entries| - 1])
  }

  /** The header to write: when the file is absent (None) or its content lacks the header. */
  function HeaderFor(existing: Option<string>): string {
    if existing.None? || !Contains(existing.value, Header) then Header else []
  }

  /** `generated_content`: the header if needed, then each entry's block. */
  function Generated(existing: Option<string>, relPath: string, entries: seq<Entry>): string {
    HeaderFor(existing) + Blocks(relPath, entries)
  }

  /** Blocks of consecutive lists concatenate. */
  lemma {:induction false} BlocksAppend(relPath: string, a: seq<Entry>, b: seq<Entry>)
    ensures Blocks(relPath, a + b) == Blocks(relPath, a) + Blocks(relPath, b)
    decreases |b|
  {
    if b == [] {
      assert a + b == a;
    } else {
      var init := b[..|b| - 1];
      assert (a + b)[..|a + b| - 1] == a + init;
      BlocksAppend(relPath, a, init);
      AppendAssoc(Blocks(relPath, a), Blocks(relPath, init), EntryBlock(relPath, b[|b| - 1]));
    }
  }

  /** Every block starts with the indentation of its locator comment. */
  lemma EntryBlockIndented(relPath: string, e: Entry)
    ensures |EntryBlock(relPath, e)| > 0 && EntryBlock(relPath, e)[0] == ' '
  {
    var loc := LocatorLine(relPath, e.line);
    assert loc[0] == ' ';
  }

  /** The blocks start with the first entry's indented locator comment, never with the header. */
  lemma {:induction false} BlocksStart(relPath: string, entries: seq<Entry>)
    requires entries != []
    ensures |Blocks(relPath, entries)| > 0 && Blocks(relPath, entries)[0] == ' '
    decreases |entries|
  {
    var init := entries[..|entries| - 1];
    var last := EntryBlock(relPath, entries[|entries| - 1]);
    assert Blocks(relPath, entries) == Blocks(relPath, init) + last;
    if |entries| > 1 {
      BlocksStart(relPath, init);
    } else {
      EntryBlockIndented(relPath, entries[0]);
      assert Blocks(relPath, init) == [];
    }
  }

  /** A text that is empty or starts with a space does not let the header start in front of it. */
  lemma HeaderChoice(existing: Option<string>, rest: string)
    requires rest == [] || rest[0] == ' '
    ensures StartsWith(HeaderFor(existing) + rest, Header) <==> existing.None? || !Contains(existing.value, Header)
  {
    var g := HeaderFor(existing) + rest;
    StartsAtIff(g, 0, Header);
    if existing.None? || !Contains(existing.value, Header) {
      assert g[..|Header|] == Header;
    } else if |Header| <= |g| {
      assert g[..|Header|][0] == ' ' != Header[0];
    }
  }

  /**
   * The generated text starts with the header exactly when the file is
   * absent or lacks the header: an existing header is never repeated
   * in front of the new blocks.
   */
  lemma GeneratedHeaderIff(existing: Option<string>, relPath: string, entries: seq<Entry>)
    ensures StartsWith(Generated(existing, relPath, entries), Header) <==> existing.None? || !Contains(existing.value, Header)
  {
    if entries != [] {
      BlocksStart(relPath, entries);
    }
    HeaderChoice(existing, Blocks(relPath, entries));
  }

  /** After a write, the file contains the header: it was already there, or it was just written in front of the blocks. */
  lemma HeaderPresentAfterWrite(existing: Option<string>, rest: string)
    ensures Contains(existing.GetOr([]) + (HeaderFor(existing) + rest), Header)
  {
    var before := existing.GetOr([]);
    if existing.Some? && Contains(existing.value, Header) {
      assert HeaderFor(existing) + rest == rest;
      ContainsExtended(before, rest, Header);
    } else {
      ContainsPlaced(before, Header, rest);
    }
  }

  // ---------------------------------------------------------------------
  // The written `old` line, read back by the skip-translated filter

  /** `s` holds `p` at index `i`, character by character. */
  predicate HoldsAt(s: string, i: nat, p: string) {
    i + |p| <= |s| && forall k :: 0 <= k < |p| ==> s[i + k] == p[k]
  }

  /**
   * Over an escaped text without newlines or backslashes, the `old`
   * re-parse's string body `[^"\\]*(?:\\.[^"\\]*)*` runs to the end: each
   * written `\"` is one escaped pair.
   */
  lemma {:induction false} EscapedRunOverEscaped(s: string, j: nat, text: string)
    requires forall k :: 0 <= k < |text| ==> text[k] != '\n' && text[k] != '\\'
    requires HoldsAt(s, j, EscapeQuotes(text))
    ensures EscapedRunEnd(s, j) == EscapedRunEnd(s, j + |EscapeQuotes(text)|)
    decreases |text|
  {
    if text != [] {
      var w := EscapedHeadStep(s, j, text);
      EscapedRunOverEscaped(s, j + w, text[1..]);
    }
  }

  /**
   * The first character of a non-empty escaped text, one or two characters
   * wide: the string body runs over it, and the rest of the text follows.
   */
  lemma EscapedHeadStep(s: string, j: nat, text: string) returns (w: nat)
    requires text != [] && text[0] != '\n' && text[0] != '\\'
    requires HoldsAt(s, j, EscapeQuotes(text))
    ensures |EscapeQuotes(text)| == w + |EscapeQuotes(text[1..])|
    ensures HoldsAt(s, j + w, EscapeQuotes(text[1..]))
    ensures EscapedRunEnd(s, j) == EscapedRunEnd(s, j + w)
  {
    var c, rest := text[0], text[1..];
    var head := EscapeQuotes([c]);
    EscapeQuotesAppend([c], rest);
    assert [c] + rest == text;
    HoldsSplit(s, j, head, EscapeQuotes(rest));
    EscapedRunStep(s, j, c);
    w := |head|;
  }

  /** One escaped character: the string body runs over it, a `\"` pair included. */
  lemma EscapedRunStep(s: string, j: nat, c: char)
    requires c != '\n' && c != '\\'
    requires HoldsAt(s, j, EscapeQuotes([c]))
    ensures EscapedRunEnd(s, j) == EscapedRunEnd(s, j + |EscapeQuotes([c])|)
  {
    assert [c][..0] == [];
    var head := EscapeQuotes([c]);
    if c == '"' {
      assert head == "\\\"";
      assert s[j] == head[0] == '\\' && s[j + 1] == head[1] == '"';
    } else {
      assert head == [c];
      assert s[j] == head[0] == c;
    }
  }

  /**
   * Where a single-line text without newlines or backslashes was written,
   * the `old` re-parse matches at its `old` line and captures the text as
   * written, escapes included.
   */
  lemma OldLineReparsed(s: string, i: nat, text: string)
    requires forall k :: 0 <= k < |text| ==> text[k] != '\n' && text[k] != '\\'
    requires HoldsAt(s, i, OldLine(text))
    ensures var n := |EscapeQuotes(text)|;
      OldEntryAt(s, i) == Some(Match(i, i + 6 + n, i + 5, i + 5 + n))
      && GroupText(s, Match(i, i + 6 + n, i + 5, i + 5 + n)) == EscapeQuotes(text)
  {
    var e := EscapeQuotes(text);
    OldLineLayout(s, i, text);
    EscapedRunOverEscaped(s, i + 5, text);
    assert EscapedRunEnd(s, i + 5 + |e|) == i + 5 + |e|;
    OldEntryAtClosed(s, i, i + 5 + |e|);
    HoldsSlice(s, i + 5, e);
  }

  /** `old`, one space and a quote, then a string body closed by a quote at `r`: the re-parse captures the body. */
  lemma OldEntryAtClosed(s: string, i: nat, r: nat)
    requires i + 5 <= r < |s| && StartsAt(s, i, "old") && s[i + 3] == ' ' && s[i + 4] == '"'
    requires EscapedRunEnd(s, i + 5) == r && s[r] == '"'
    ensures OldEntryAt(s, i) == Some(Match(i, r + 1, i + 5, r))
  {
    assert SkipSpaces(s, i + 4) == i + 4;
  }

  /** Where an `old` line is held: the keyword, one space, the quote, the escaped text, the closing quote. */
  lemma OldLineLayout(s: string, i: nat, text: string)
    requires HoldsAt(s, i, OldLine(text))
    ensures var e := EscapeQuotes(text);
      i + 6 + |e| <= |s| && StartsAt(s, i, "old") && s[i + 3] == ' ' && s[i + 4] == '"'
      && HoldsAt(s, i + 5, e) && s[i + 5 + |e|] == '"'
  {
    var e := EscapeQuotes(text);
    var line := OldLine(text);
    var open := "old \"";
    assert line == open + e + "\"";
    assert s[i] == line[0] == 'o' && s[i + 1] == line[1] == 'l' && s[i + 2] == line[2] == 'd';
    assert s[i + 3] == line[3] && s[i + 4] == line[4];
    assert s[i + 5 + |e|] == line[5 + |e|];
    HoldsMiddle(open, e, "\"");
    HoldsWithin(s, i, line, 5, e);
  }

  /** A held piece is the slice of that length. */
  lemma HoldsSlice(s: string, i: nat, p: string)
    requires HoldsAt(s, i, p)
    ensures s[i..i + |p|] == p
  {
  }

  /** The single-line form holds its `old` line after four spaces of indentation. */
  lemma SingleLineFormLayout(text: string)
    ensures HoldsAt(SingleLineForm(text), 4, OldLine(text))
  {
    var line := OldLine(text);
    var form := SingleLineForm(text);
    forall k | 0 <= k < |line| ensures form[4 + k] == line[k] {
    }
  }

  /** The `old` re-parse at index `i` is the `old`-line recogniser. */
  lemma MatchAtOldEntry(s: string, i: nat)
    requires i < |s|
    ensures MatchAt(OldEntry, s, i) == OldEntryAt(s, i)
  {
  }

  /** A text without newlines is written in the single-line form. */
  lemma SingleLineEntryForm(text: string)
    requires forall k :: 0 <= k < |text| ==> text[k] != '\n'
    ensures EntryForm(text) == SingleLineForm(text)
  {
    assert '\n' !in text;
  }

  /**
   * What the skip-translated filter reads back from the lines of a
   * single-line text written at `i`: its text exactly when the text has
   * no `"` (and no backslash or newline); a text with a `"` comes back
   * with `\"` and so never equals the text it was written from.
   */
  lemma WrittenEntryReadBack(s: string, i: nat, text: string)
    requires forall k :: 0 <= k < |text| ==> text[k] != '\n' && text[k] != '\\'
    requires HoldsAt(s, i, SingleLineForm(text))
    ensures var n := |EscapeQuotes(text)|;
      OldEntryAt(s, i + 4) == Some(Match(i + 4, i + 10 + n, i + 9, i + 9 + n))
      && (GroupText(s, Match(i + 4, i + 10 + n, i + 9, i + 9 + n)) == text <==> '"' !in text)
  {
    SingleLineFormLayout(text);
    HoldsWithin(s, i, SingleLineForm(text), 4, OldLine(text));
    OldLineReadBack(s, i + 4, text);
  }

  /** Read back from a written `old` line, a text without newlines or backslashes is itself exactly when it has no `"`. */
  lemma OldLineReadBack(s: string, i: nat, text: string)
    requires forall k :: 0 <= k < |text| ==> text[k] != '\n' && text[k] != '\\'
    requires HoldsAt(s, i, OldLine(text))
    ensures var n := |EscapeQuotes(text)|;
      OldEntryAt(s, i) == Some(Match(i, i + 6 + n, i + 5, i + 5 + n))
      && (GroupText(s, Match(i, i + 6 + n, i + 5, i + 5 + n)) == text <==> '"' !in text)
  {
    OldLineReparsed(s, i, text);
    if '"' in text {
      var k :| 0 <= k < |text| && text[k] == '"';
      CountCharPositive(text, k);
    } else {
      EscapeQuotesNoQuote(text);
    }
  }

  /** A text with a `"` at `k` counts at least one. */
  lemma {:induction false} CountCharPositive(s: string, k: nat)
    requires k < |s| && s[k] == '"'
    ensures CountChar(s, '"') > 0
    decreases |s|
  {
    if k < |s| - 1 {
      CountCharPositive(s[..|s| - 1], k);
    }
  }

  /** Escaping a text without `"` changes nothing. */
  lemma {:induction false} EscapeQuotesNoQuote(s: string)
    requires '"' !in s
    ensures EscapeQuotes(s) == s
    decreases |s|
  {
    if s != [] {
      assert s[..|s| - 1] + [s[|s| - 1]] == s;
      EscapeQuotesNoQuote(s[..|s| - 1]);
    }
  }

  /** The lines of a multi-line text written at `i` are read back as the empty text. */
  lemma MultiLineReadBackEmpty(s: string, i: nat, text: string)
    requires HoldsAt(s, i, MultiLineForm(text))
    ensures OldEntryAt(s, i + 4).Some? && OldEntryAt(s, i + 4).value.groupStart == OldEntryAt(s, i + 4).value.groupEnd
  {
    var form := MultiLineForm(text);
    assert HoldsAt(form, 4, "old \"\"\"") by {
      assert form[4..11] == "old \"\"\"";
    }
    HoldsWithin(s, i, form, 4, "old \"\"\"");
    ReparseTriple(s, i + 4);
  }

  /** What a piece holds, a text holding the piece holds too, shifted by the piece's position. */
  lemma HoldsWithin(s: string, i: nat, piece: string, at: nat, p: string)
    requires HoldsAt(s, i, piece) && HoldsAt(piece, at, p)
    ensures HoldsAt(s, i + at, p)
  {
    forall k | 0 <= k < |p| ensures s[i + at + k] == p[k] {
      assert s[i + (at + k)] == piece[at + k];
    }
  }

  /** The middle piece of a concatenation is held right after the first. */
  lemma HoldsMiddle(pre: string, piece: string, post: string)
    ensures HoldsAt(pre + piece + post, |pre|, piece)
  {
    var all := pre + piece + post;
    forall j | 0 <= j < |piece| ensures all[|pre| + j] == piece[j] {
    }
  }

  /** Where a concatenation is held, so are its two halves, one after the other. */
  lemma HoldsSplit(s: string, j: nat, a: string, b: string)
    requires HoldsAt(s, j, a + b)
    ensures HoldsAt(s, j, a) && HoldsAt(s, j + |a|, b)
  {
    forall k | 0 <= k < |a| ensures s[j + k] == a[k] {
      assert (a + b)[k] == a[k];
    }
    forall k | 0 <= k < |b| ensures s[j + |a| + k] == b[k] {
      assert s[j + (|a| + k)] == (a + b)[|a| + k];
    }
  }

  /** The blocks hold each entry's block right after the blocks of the entries before it. */
  lemma BlockPlacement(relPath: string, entries: seq<Entry>, k: nat)
    requires k < |entries|
    ensures HoldsAt(Blocks(relPath, entries), |Blocks(relPath, entries[..k])|, EntryBlock(relPath, entries[k]))
  {
    var a, b := entries[..k], entries[k + 1..];
    assert entries == a + [entries[k]] + b;
    BlocksAppend(relPath, a + [entries[k]], b);
    BlocksAppend(relPath, a, [entries[k]]);
    assert [entries[k]][..0] == [];
    HoldsMiddle(Blocks(relPath, a), EntryBlock(relPath, entries[k]), Blocks(relPath, b));
  }

  /** Where an entry's block is held, its lines are held right after its locator comment. */
  lemma EntryFormAfterLocator(s: string, i: nat, relPath: string, e: Entry)
    requires HoldsAt(s, i, EntryBlock(relPath, e))
    ensures HoldsAt(s, i + |LocatorLine(relPath, e.line)|, EntryForm(e.text))
  {
    HoldsSplit(s, i, LocatorLine(relPath, e.line), EntryForm(e.text));
  }

  /** An `old """` at `i` followed by the closing quotes is read back as the empty text. */
  lemma ReparseTriple(s: string, i: nat)
    requires HoldsAt(s, i, "old \"\"\"")
    ensures OldEntryAt(s, i).Some? && OldEntryAt(s, i).value.groupStart == OldEntryAt(s, i).value.groupEnd
  {
    var p := "old \"\"\"";
    assert s[i] == p[0] && s[i + 1] == p[1] && s[i + 2] == p[2] && s[i + 3] == p[3];
    assert s[i + 4] == p[4] && s[i + 5] == p[5] && s[i + 6] == p[6];
    assert StartsAt(s, i, "old");
    assert SkipSpaces(s, i + 4) == i + 4;
    assert StartsAt(s, i + 4, "\"\"\"");
    OldTripleBlockCapturesEmpty(s, i);
  }

  // ---------------------------------------------------------------------
  // JSON and CSV data

  /** One JSON record: `{"line": line, "source": text, "translation": ""}`. */
  function Record(e: Entry): Json {
    JObj([("line", JNum(e.line)), ("source", JStr(e.text)), ("translation", JStr(""))])
  }

  /** The `entries` list of the JSON document, one record per entry in order. */
  function Records(entries: seq<Entry>): (r: seq<Json>)
    ensures |r| == |entries|
  {
    seq(|entries|, i requires 0 <= i < |entries| => Record(entries[i]))
  }

  /** The document `_write_json_translation` dumps. */
  function TranslationData(relPath: string, entries: seq<Entry>): Json {
    JObj([("source_file", JStr(relPath)), ("entries", JArr(Records(entries)))])
  }

  /** Reading a record back: its line and source, when both have the right kind. */
  function RecordEntry(j: Json): Option<Entry> {
    if !j.JObj? then None
    else
      match (Get(j.members, "line"), Get(j.members, "source"))
      case (Some(JNum(n)), Some(JStr(t))) => Some(Entry(n, t))
      case _ => None
  }

  /** A record reads back as its entry, with an empty translation. */
  lemma RecordRoundTrip(e: Entry)
    ensures RecordEntry(Record(e)) == Some(e)
    ensures Get(Record(e).members, "translation") == Some(JStr(""))
  {
    var m := Record(e).members;
    var line, source, translation := "line", "source", "translation";
    assert line[0] == 'l' && source[0] == 's' && translation[0] == 't';
    assert m[1..] == [(source, JStr(e.text)), (translation, JStr(""))];
    assert m[1..][1..] == [(translation, JStr(""))];
    assert Get(m, line) == Some(JNum(e.line));
    assert Get(m[1..], source) == Some(JStr(e.text));
    assert Get(m[1..][1..], translation) == Some(JStr(""));
  }

  /** Every record of the document reads back as its entry, in order, with an empty translation. */
  lemma RecordsRoundTrip(entries: seq<Entry>)
    ensures forall i :: 0 <= i < |entries| ==>
      RecordEntry(Records(entries)[i]) == Some(entries[i])
      && Get(Records(entries)[i].members, "translation") == Some(JStr(""))
  {
    forall i | 0 <= i < |entries|
      ensures RecordEntry(Records(entries)[i]) == Some(entries[i])
      ensures Get(Records(entries)[i].members, "translation") == Some(JStr(""))
    {
      RecordRoundTrip(entries[i]);
    }
  }

  /** The CSV header row. */
  const CsvHeader: seq<string> := ["Line", "SourceFile", "SourceText", "Translation"]

  /** The rows `_write_csv_translation` writes: the header, then `[line, rel_path, text, ""]` per entry. */
  function CsvRows(relPath: string, entries: seq<Entry>): (rows: seq<seq<string>>)
    ensures |rows| == |entries| + 1 && rows[0] == CsvHeader
    ensures forall i :: 0 <= i < |entries| ==> |rows[i + 1]| == 4 && rows[i + 1][1] == relPath && rows[i + 1][2] == entries[i].text && rows[i + 1][3] == []
  {
    [CsvHeader] + seq(|entries|, i requires 0 <= i < |entries| => [IntToString(entries[i].line), relPath, entries[i].text, ""])
  }

  // ---------------------------------------------------------------------
  // Writing

  /** Python's `os.path.dirname`: up to the last `/`, trailing slashes removed unless it is all slashes. */
  function Dirname(p: string): (d: string)
    ensures |d| <= |p| && d == p[..|d|]
  {
    match LastIndexOf(p, '/')
    case None => []
    case Some(i) =>
      var head := p[..i + 1];
      if forall k :: 0 <= k < |head| ==> head[k] == '/' then head else TrimSlashes(head)
  }

  /** `rstrip('/')`. */
  function TrimSlashes(s: string): (r: string)
    ensures |r| <= |s| && r == s[..|r|]
  {
    if s != [] && s[|s| - 1] == '/' then TrimSlashes(s[..|s| - 1]) else s
  }

  /**
   * `os.makedirs(dirname, exist_ok=True)` does not raise: the directory
   * name is not empty, and the directory either exists already or can be
   * created.
   */
  predicate CanMakeDirs(dir: string, dirs: set<string>, unwritable: set<string>) {
    dir != [] && (dir in dirs || dir !in unwritable)
  }

  /** The writers the registry can hold. */
  datatype Writer = RenpyWriter | JsonWriter | CsvWriter

  /** The file a writer writes: the destination itself, or it with the extension replaced. */
  function Target(w: Writer, filepath: string): string {
    match w
    case RenpyWriter => filepath
    case JsonWriter => SplitExtRoot(filepath) + ".json"
    case CsvWriter => SplitExtRoot(filepath) + ".csv"
  }

  /**
   * The content a writer leaves in its target, or None when it returns
   * False: the directory cannot be made, the existing Ren'Py file cannot
   * be read, or the target cannot be written.
   */
  function Output(w: Writer, files: map<string, string>, dirs: set<string>, unreadable: set<string>, unwritable: set<string>,
                  filepath: string, relPath: string, entries: seq<Entry>,
                  dump: Json -> string, formatCsv: seq<seq<string>> -> string): (r: Option<string>)
    ensures r.Some? <==> CanMakeDirs(Dirname(filepath), dirs, unwritable) && Target(w, filepath) !in unwritable
                         && (w.RenpyWriter? ==> filepath !in files || filepath !in unreadable)
  {
    if !CanMakeDirs(Dirname(filepath), dirs, unwritable) then None
    else match w
      case RenpyWriter =>
        if filepath in files && filepath in unreadable then None
        else if filepath in unwritable then None
        else
          var existing := if filepath in files then Some(files[filepath]) else None;
          Some(existing.GetOr([]) + Generated(existing, relPath, entries))
      case JsonWriter =>
        if Target(w, filepath) in unwritable then None
        else Some(dump(TranslationData(relPath, entries)))
      case CsvWriter =>
        if Target(w, filepath) in unwritable then None
        else Some(formatCsv(CsvRows(relPath, entries)))
  }

  /** The directory a writer creates, if it gets that far. */
  function MadeDirs(filepath: string, dirs: set<string>, unwritable: set<string>): set<string> {
    if CanMakeDirs(Dirname(filepath), dirs, unwritable) then {Dirname(filepath)} else {}
  }

  /**
   * A directory that exists already never stops a writer, even one that
   * could not be created: a read-only `/t` holding a writable `/t/a.rpy`
   * gets the new blocks appended.
   */
  lemma ExistingDirectoryAppend(relPath: string, entries: seq<Entry>,
                                dump: Json -> string, formatCsv: seq<seq<string>> -> string)
    ensures Output(RenpyWriter, map["/t/a.rpy" := "x"], {"/t"}, {}, {"/t"}, "/t/a.rpy", relPath, entries, dump, formatCsv)
         == Some("x" + Generated(Some("x"), relPath, entries))
  {
    var p := "/t/a.rpy";
    assert p[2] == '/' && forall k :: 2 < k < |p| ==> p[k] != '/';
    assert LastIndexOf(p, '/') == Some(2);
    assert p[..3] == "/t/" && p[1] != '/';
    assert TrimSlashes("/t/") == TrimSlashes("/t") == "/t";
    assert Dirname(p) == "/t";
  }

  /** The Ren'Py writer only ever appends: the existing content stays in front, untouched, and the header is there afterwards. */
  lemma RenpyOutputAppends(files: map<string, string>, dirs: set<string>, unreadable: set<string>, unwritable: set<string>,
                           filepath: string, relPath: string, entries: seq<Entry>,
                           dump: Json -> string, formatCsv: seq<seq<string>> -> string)
    requires Output(RenpyWriter, files, dirs, unreadable, unwritable, filepath, relPath, entries, dump, formatCsv).Some?
    ensures var out := Output(RenpyWriter, files, dirs, unreadable, unwritable, filepath, relPath, entries, dump, formatCsv).value;
      var before := if filepath in files then files[filepath] else [];
      |before| <= |out| && out[..|before|] == before && Contains(out, Header)
  {
    var existing := if filepath in files then Some(files[filepath]) else None;
    HeaderPresentAfterWrite(existing, Blocks(relPath, entries));
  }

  /** The loop of `_write_renpy_translation`: one block per entry, in order. */
  method BuildBlocks(relPath: string, entries: seq<Entry>) returns (blocks: string)
    ensures blocks == Blocks(relPath, entries)
  {
    blocks := [];
    for k := 0 to |entries|
      invariant blocks == Blocks(relPath, entries[..k])
    {
      assert entries[..k + 1][..k] == entries[..k];
      blocks := blocks + EntryBlock(relPath, entries[k]);
    }
    assert entries[..|entries|] == entries;
  }

  /** `_write_renpy_translation`: make the directory, look for the header, build the blocks and append. */
  method WriteRenpyTranslation(fs: Disk, filepath: string, entries: seq<Entry>, relPath: string,
                               ghost dump: Json -> string, ghost formatCsv: seq<seq<string>> -> string)
    returns (ok: bool)
    modifies fs
    ensures var out := old(Output(RenpyWriter, fs.files, fs.dirs, fs.unreadable, fs.unwritable, filepath, relPath, entries, dump, formatCsv));
      (ok <==> out.Some?) && fs.files == (if ok then old(fs.files)[filepath := out.value] else old(fs.files))
    ensures fs.dirs == old(fs.dirs) + MadeDirs(filepath, old(fs.dirs), old(fs.unwritable))
    ensures fs.unreadable == old(fs.unreadable) && fs.unwritable == old(fs.unwritable)
  {
    var dir := Dirname(filepath);
    if !CanMakeDirs(dir, fs.dirs, fs.unwritable) {
      return false;
    }
    fs.MakeDirs(dir);
    var existing: Option<string> := None;
    if filepath in fs.files {
      existing := fs.Read(filepath);
      if existing.None? {
        return false;
      }
    }
    var generated := HeaderFor(existing);
    var blocks := BuildBlocks(relPath, entries);
    generated := generated + blocks;
    ok := fs.Append(filepath, generated);
  }

  /** `_write_json_translation`: make the directory and replace `<root>.json` with the dumped document. */
  method WriteJsonTranslation(fs: Disk, filepath: string, entries: seq<Entry>, relPath: string,
                              dump: Json -> string, ghost formatCsv: seq<seq<string>> -> string)
    returns (ok: bool)
    modifies fs
    ensures var out := old(Output(JsonWriter, fs.files, fs.dirs, fs.unreadable, fs.unwritable, filepath, relPath, entries, dump, formatCsv));
      (ok <==> out.Some?) && fs.files == (if ok then old(fs.files)[Target(JsonWriter, filepath) := out.value] else old(fs.files))
    ensures fs.dirs == old(fs.dirs) + MadeDirs(filepath, old(fs.dirs), old(fs.unwritable))
    ensures fs.unreadable == old(fs.unreadable) && fs.unwritable == old(fs.unwritable)
  {
    var dir := Dirname(filepath);
    if !CanMakeDirs(dir, fs.dirs, fs.unwritable) {
      return false;
    }
    fs.MakeDirs(dir);
    var path := SplitExtRoot(filepath) + ".json";
    ok := fs.Overwrite(path, dump(TranslationData(relPath, entries)));
  }

  /** `_write_csv_translation`: make the directory and replace `<root>.csv` with the header and one row per entry. */
  method WriteCsvTranslation(fs: Disk, filepath: string, entries: seq<Entry>, relPath: string,
                             ghost dump: Json -> string, formatCsv: seq<seq<string>> -> string)
    returns (ok: bool)
    modifies fs
    ensures var out := old(Output(CsvWriter, fs.files, fs.dirs, fs.unreadable, fs.unwritable, filepath, relPath, entries, dump, formatCsv));
      (ok <==> out.Some?) && fs.files == (if ok then old(fs.files)[Target(CsvWriter, filepath) := out.value] else old(fs.files))
    ensures fs.dirs == old(fs.dirs) + MadeDirs(filepath, old(fs.dirs), old(fs.unwritable))
    ensures fs.unreadable == old(fs.unreadable) && fs.unwritable == old(fs.unwritable)
  {
    var dir := Dirname(filepath);
    if !CanMakeDirs(dir, fs.dirs, fs.unwritable) {
      return false;
    }
    fs.MakeDirs(dir);
    var path := SplitExtRoot(filepath) + ".csv";
    ok := fs.Overwrite(path, formatCsv(CsvRows(relPath, entries)));
  }

  // ---------------------------------------------------------------------
  // The registry

  const RenpyName: string := "renpy"
  const JsonName: string := "json"
  const CsvName: string := "csv"

  /** The writers `__init__` registers. */
  function Builtins(): (m: map<string, Writer>)
    ensures m.Keys == {RenpyName, JsonName, CsvName}
  {
    map[RenpyName := RenpyWriter, JsonName := JsonWriter, CsvName := CsvWriter]
  }

  class WriterRegistry {
    /** `self.writers`: name -> writer. */
    var writers: map<string, Writer>
    /** The serialisers the JSON and CSV writers use (`json.dump`, `csv.writer`). */
    const dump: Json -> string
    const formatCsv: seq<seq<string>> -> string

    /** `__init__`: the Ren'Py, JSON and CSV writers. */
    constructor(dump: Json -> string, formatCsv: seq<seq<string>> -> string)
      ensures writers == Builtins() && this.dump == dump && this.formatCsv == formatCsv
    {
      writers := Builtins();
      this.dump := dump;
      this.formatCsv := formatCsv;
    }

    /** `get_writer`: the writer registered under `name`, or None. */
    method GetWriter(name: string) returns (w: Option<Writer>)
      ensures w.Some? <==> name in writers
      ensures w.Some? ==> w.value == writers[name]
    {
      if name in writers {
        return Some(writers[name]);
      }
      return None;
    }

    /** `get_all_writers`: a copy of the map. */
    method GetAllWriters() returns (all: map<string, Writer>)
      ensures all == writers
    {
      all := writers;
    }

    /** `register_writer`: bind `name`, replacing any writer already there; always True. */
    method RegisterWriter(name: string, w: Writer) returns (ok: bool)
      modifies this
      ensures ok && writers == old(writers)[name := w]
    {
      writers := writers[name := w];
      return true;
    }

    /** `unregister_writer`: delete `name`; True exactly when it was registered. */
    method UnregisterWriter(name: string) returns (ok: bool)
      modifies this
      ensures (ok <==> name in old(writers)) && writers == old(writers) - {name}
    {
      if name in writers {
        writers := writers - {name};
        return true;
      }
      return false;
    }

    /**
     * `write_translation_file`: run the writer registered under `name`; an
     * unknown name writes nothing and returns False.
     */
    method WriteTranslationFile(name: string, fs: Disk, filepath: string, entries: seq<Entry>, relPath: string)
      returns (ok: bool)
      modifies fs
      ensures name !in writers ==> !ok && fs.files == old(fs.files) && fs.dirs == old(fs.dirs)
      ensures name in writers ==>
        var w := writers[name];
        var out := old(Output(w, fs.files, fs.dirs, fs.unreadable, fs.unwritable, filepath, relPath, entries, dump, formatCsv));
        (ok <==> out.Some?)
        && fs.files == (if ok then old(fs.files)[Target(w, filepath) := out.value] else old(fs.files))
        && fs.dirs == old(fs.dirs) + MadeDirs(filepath, old(fs.dirs), old(fs.unwritable))
      ensures fs.unreadable == old(fs.unreadable) && fs.unwritable == old(fs.unwritable)
    {
      var w := GetWriter(name);
      if w.None? {
        return false;
      }
      match w.value {
        case RenpyWriter => ok := WriteRenpyTranslation(fs, filepath, entries, relPath, dump, formatCsv);
        case JsonWriter => ok := WriteJsonTranslation(fs, filepath, entries, relPath, dump, formatCsv);
        case CsvWriter => ok := WriteCsvTranslation(fs, filepath, entries, relPath, dump, formatCsv);
      }
    }
  }
}
