/**
 * core/extractor.py: one extraction run. It finds the game's script files,
 * extracts their texts with the configured rules, keeps those the
 * configured validators accept and that no earlier file already yielded,
 * and appends a Ren'Py translation block for each file to the matching
 * file under the translation directory.
 *
 * `glob` is an input (the paths it returned); files are the `Disk`;
 * logging and the events the run publishes are left out, except the
 * progress reports, which the run returns.
 */
module Extraction {
  import opened Wrappers
  import opened Text
  import opened Patterns
  import opened JsonData
  import opened Common
  import opened Seqs
  import opened FileSystem
  import V = ValidatorFactory
  import X = ExtractorFactory
  import W = WriterFactory

  /** The settings of `TranslationConfig` the run reads. */
  datatype Config = Config(
    gameDir: string,
    translationDir: string,
    skipTranslated: bool,
    extractors: seq<string>,
    validators: seq<string>)

  /** `TranslationConfig()`: no game directory, `game/tl/schinese`, skip translated, no rules, two validators. */
  function DefaultConfig(): (c: Config)
    ensures c.gameDir == [] && c.skipTranslated && c.extractors == []
    ensures c.validators == [V.NonEmptyName, V.NoInvalidCharsName]
  {
    Config("", "game/tl/schinese", true, [], [V.NonEmptyName, V.NoInvalidCharsName])
  }

  /** What the extraction step sees: the configuration, the files as they are, and the two registries' maps. */
  datatype Sources = Sources(
    cfg: Config,
    files: map<string, string>,
    unreadable: set<string>,
    extractors: map<string, X.Extractor>,
    validators: map<string, V.Validator>)

  // ---------------------------------------------------------------------
  // Finding the files

  /** The list comprehension of `_find_files`: the found paths that do not start with the translation directory, in order. */
  function OutsideDir(files: seq<string>, tlPath: string): (r: seq<string>)
    ensures |r| <= |files|
    ensures forall f :: f in r <==> f in files && !StartsWith(f, tlPath)
  {
    if files == [] then []
    else
      var init := files[..|files| - 1];
      var last := files[|files| - 1];
      assert forall f :: f in files <==> f in init || f == last;
      OutsideDir(init, tlPath) + (if StartsWith(last, tlPath) then [] else [last])
  }

  // ---------------------------------------------------------------------
  // One file: validation and cross-file deduplication

  /** The texts of a list of entries. */
  function Texts(es: seq<Entry>): set<string> {
    set i | 0 <= i < |es| :: es[i].text
  }

  lemma TextsSnoc(es: seq<Entry>, e: Entry)
    ensures Texts(es + [e]) == Texts(es) + {e.text}
  {
    var t := es + [e];
    forall x | x in Texts(t) ensures x in Texts(es) + {e.text} {
      var i :| 0 <= i < |t| && t[i].text == x;
      if i < |es| { assert es[i] == t[i]; }
    }
    forall x | x in Texts(es) ensures x in Texts(t) {
      var i :| 0 <= i < |es| && es[i].text == x;
      assert t[i] == es[i];
    }
    assert t[|es|] == e;
  }

  /** The `validated_entries` loop: the entries whose text the validators named in the configuration accept, in order. */
  function Validated(validators: map<string, V.Validator>, names: seq<string>, es: seq<Entry>): (r: seq<Entry>)
    ensures |r| <= |es|
    ensures forall e :: e in r <==> e in es && V.Passes(validators, e.text, names)
  {
    if es == [] then []
    else
      var init := es[..|es| - 1];
      var last := es[|es| - 1];
      assert forall e :: e in es <==> e in init || e == last;
      Validated(validators, names, init) + (if V.Passes(validators, last.text, names) then [last] else [])
  }

  /** The entries of `es[..j + 1]` that pass: those of `es[..j]`, then `es[j]` if it passes. */
  lemma ValidatedStep(validators: map<string, V.Validator>, names: seq<string>, es: seq<Entry>, j: nat)
    requires j < |es|
    ensures Validated(validators, names, es[..j + 1]) ==
      Validated(validators, names, es[..j]) + (if V.Passes(validators, es[j].text, names) then [es[j]] else [])
  {
    assert es[..j + 1][..j] == es[..j];
  }

  /**
   * The `unique_entries` loop: the entries whose text is neither in `seen`
   * nor the text of an earlier entry of the list.
   */
  function Kept(seen: set<string>, es: seq<Entry>): seq<Entry> {
    if es == [] then []
    else
      var init := es[..|es| - 1];
      var last := es[|es| - 1];
      Kept(seen, init) + (if last.text in seen + Texts(init) then [] else [last])
  }

  /**
   * Deduplication keeps entries of the list, no two with the same text,
   * and its texts are exactly the list's texts not seen before: each
   * unseen text once, no seen text ever.
   */
  lemma {:induction false} KeptSpec(seen: set<string>, es: seq<Entry>)
    ensures var r := Kept(seen, es);
      (forall i :: 0 <= i < |r| ==> r[i] in es)
      && (forall i, j :: 0 <= i < j < |r| ==> r[i].text != r[j].text)
      && Texts(r) == Texts(es) - seen
    decreases |es|
  {
    if es != [] {
      var init := es[..|es| - 1];
      var last := es[|es| - 1];
      assert es == init + [last];
      KeptSpec(seen, init);
      TextsSnoc(init, last);
      var r0 := Kept(seen, init);
      if last.text in seen + Texts(init) {
        assert Kept(seen, es) == r0 + [] == r0;
      } else {
        var r := r0 + [last];
        assert Kept(seen, es) == r;
        TextsSnoc(r0, last);
        forall i | 0 <= i < |r0| ensures r0[i].text != last.text {
          assert r0[i].text in Texts(r0);
        }
        forall i | 0 <= i < |r| ensures r[i] in es {
          if i < |r0| { assert r[i] == r0[i]; }
        }
      }
    }
  }

  /** The result of the file loop so far: the texts seen, and the `file_entries` dict as key order and map. */
  datatype Found = Found(seen: set<string>, order: seq<string>, entries: map<string, seq<Entry>>)

  /** The state before the first file. */
  const Start: Found := Found({}, [], map[])

  /** What reading a file and running the configured rules on it gives; None when either raises. */
  function FileEntries(src: Sources, path: string): Option<seq<Entry>> {
    match ReadResult(src.files, src.unreadable, path)
    case None => None
    case Some(content) => X.Combined(src.extractors, content, path, src.cfg.extractors)
  }

  /**
   * One turn of the file loop. A file that cannot be read, or on which a
   * rule raises, changes nothing. Otherwise the validated texts become
   * seen, and the file is recorded with its unseen entries if it has any
   * (a path already recorded keeps its place in the dict).
   */
  function FileStep(src: Sources, st: Found, path: string): Found {
    match FileEntries(src, path)
    case None => st
    case Some(es) =>
      var valid := Validated(src.validators, src.cfg.validators, es);
      var unique := Kept(st.seen, valid);
      if unique == [] then st.(seen := st.seen + Texts(valid))
      else Found(st.seen + Texts(valid),
                 if path in st.entries then st.order else st.order + [path],
                 st.entries[path := unique])
  }

  /** The file loop of `_extract_strings` over `paths`, from `st`. */
  function Run(src: Sources, st: Found, paths: seq<string>): Found {
    if paths == [] then st
    else FileStep(src, Run(src, st, paths[..|paths| - 1]), paths[|paths| - 1])
  }

  /** Running over `a + b` is running over `a`, then over `b`. */
  lemma {:induction false} RunAppend(src: Sources, st: Found, a: seq<string>, b: seq<string>)
    ensures Run(src, st, a + b) == Run(src, Run(src, st, a), b)
    decreases |b|
  {
    if b == [] {
      assert a + b == a;
    } else {
      assert (a + b)[..|a + b| - 1] == a + b[..|b| - 1];
      RunAppend(src, st, a, b[..|b| - 1]);
    }
  }

  /** A file that fails (cannot be read, or a rule raises on it) is skipped. */
  predicate Fails(src: Sources, path: string) {
    FileEntries(src, path).None?
  }

  /**
   * Per-file error isolation: a failing file is as if it were not in the
   * list; the files after it are processed as they would be without it.
   */
  lemma FailingFileIsolated(src: Sources, st: Found, a: seq<string>, bad: string, b: seq<string>)
    requires Fails(src, bad)
    ensures Run(src, st, a + [bad] + b) == Run(src, st, a + b)
  {
    RunAppend(src, st, a + [bad], b);
    RunAppend(src, st, a, [bad]);
    assert [bad][..0] == [];
    assert Run(src, Run(src, st, a), [bad]) == Run(src, st, a);
    RunAppend(src, st, a, b);
  }

  /**
   * The invariant of the file loop: the dict's key order lists each
   * recorded file once; every recorded file has entries; every recorded
   * text has been seen; and no text is recorded twice, within a file or
   * across files.
   */
  ghost predicate WellFormed(st: Found) {
    Distinct(st.order)
    && (forall p :: p in st.entries <==> p in st.order)
    && (forall p :: p in st.entries ==> st.entries[p] != [] && Texts(st.entries[p]) <= st.seen)
    && (forall p, q, i, j :: p in st.entries && q in st.entries
          && 0 <= i < |st.entries[p]| && 0 <= j < |st.entries[q]| && (p != q || i != j)
          ==> st.entries[p][i].text != st.entries[q][j].text)
  }

  /** Every recorded entry came out of its file's rules and passed the validators. */
  ghost predicate Accepted(src: Sources, st: Found) {
    forall p :: p in st.entries ==> AcceptedFile(src, p, st.entries[p])
  }

  /** The entries recorded for `p` are among what its rules found, and each passed the validators. */
  ghost predicate AcceptedFile(src: Sources, p: string, recorded: seq<Entry>) {
    FileEntries(src, p).Some?
    && forall i :: 0 <= i < |recorded| ==>
         recorded[i] in FileEntries(src, p).value && V.Passes(src.validators, recorded[i].text, src.cfg.validators)
  }

  /** One turn keeps the invariant, and records only accepted entries. */
  lemma FileStepKeeps(src: Sources, st: Found, path: string)
    requires WellFormed(st) && Accepted(src, st)
    ensures WellFormed(FileStep(src, st, path)) && Accepted(src, FileStep(src, st, path))
  {
    if FileEntries(src, path).Some? {
      var es := FileEntries(src, path).value;
      var valid := Validated(src.validators, src.cfg.validators, es);
      var unique := Kept(st.seen, valid);
      KeptSpec(st.seen, valid);
      if unique != [] {
        RecordKeeps(st, path, unique, st.seen + Texts(valid));
        forall i | 0 <= i < |unique|
          ensures unique[i] in es && V.Passes(src.validators, unique[i].text, src.cfg.validators)
        {
          assert unique[i] in valid;
        }
        assert AcceptedFile(src, path, unique);
      }
    }
  }

  /** Recording a non-empty list of unseen, distinct texts under `path` keeps the invariant. */
  lemma RecordKeeps(st: Found, path: string, unique: seq<Entry>, seen: set<string>)
    requires WellFormed(st) && unique != []
    requires forall i, j :: 0 <= i < j < |unique| ==> unique[i].text != unique[j].text
    requires Texts(unique) !! st.seen && st.seen <= seen && Texts(unique) <= seen
    ensures WellFormed(Found(seen, if path in st.entries then st.order else st.order + [path], st.entries[path := unique]))
  {
    var order := if path in st.entries then st.order else st.order + [path];
    var m: map<string, seq<Entry>> := st.entries[path := unique];
    if path !in st.entries {
      forall a, b | 0 <= a < b < |order| ensures order[a] != order[b] {
        if b == |st.order| { assert order[a] == st.order[a]; }
      }
    }
    forall p, q, i, j | p in m && q in m && 0 <= i < |m[p]| && 0 <= j < |m[q]| && (p != q || i != j)
      ensures m[p][i].text != m[q][j].text
    {
      if p == path && q != path {
        assert m[p][i].text in Texts(unique);
        assert m[q][j].text in Texts(st.entries[q]);
      } else if q == path && p != path {
        assert m[q][j].text in Texts(unique);
        assert m[p][i].text in Texts(st.entries[p]);
      } else if p == path && q == path {
        if i > j { }
      }
    }
  }

  /**
   * The dedup guarantee of `_extract_strings`: after any list of files,
   * each recorded file has entries, every entry passed the validators and
   * came from its file, and no text is recorded twice across all files.
   */
  lemma {:induction false} RunKeeps(src: Sources, paths: seq<string>)
    ensures WellFormed(Run(src, Start, paths)) && Accepted(src, Run(src, Start, paths))
    decreases |paths|
  {
    if paths != [] {
      RunKeeps(src, paths[..|paths| - 1]);
      FileStepKeeps(src, Run(src, Start, paths[..|paths| - 1]), paths[|paths| - 1]);
    }
  }

  /** A text once seen is never recorded again by a later file. */
  lemma SeenNotRecordedAgain(src: Sources, st: Found, path: string)
    ensures var nx := FileStep(src, st, path);
      st.seen <= nx.seen
      && (path in nx.entries && nx.entries != st.entries ==> Texts(nx.entries[path]) !! st.seen)
  {
    if FileEntries(src, path).Some? {
      KeptSpec(st.seen, Validated(src.validators, src.cfg.validators, FileEntries(src, path).value));
    }
  }

  /** The progress reports of `_extract_strings`: `(i, total)` before file `i`, then `(total, total)`. */
  function Progress(total: nat): (r: seq<(nat, nat)>)
    ensures |r| == total + 1 && r[total] == (total, total)
    ensures forall i :: 0 <= i < total ==> r[i] == (i, total)
  {
    seq(total + 1, i requires 0 <= i <= total => (i, total))
  }

  // ---------------------------------------------------------------------
  // Generating the translation files

  /** The stripped texts of the given `old` matches in `content`. */
  function MatchTexts(content: string, ms: seq<Match>): set<string>
    requires forall k :: 0 <= k < |ms| ==> Fits(ms[k], content)
  {
    set k | 0 <= k < |ms| :: Strip(GroupText(content, ms[k]))
  }

  lemma MatchTextsSnoc(content: string, ms: seq<Match>, m: Match)
    requires forall k :: 0 <= k < |ms| ==> Fits(ms[k], content)
    requires Fits(m, content)
    ensures MatchTexts(content, ms + [m]) == MatchTexts(content, ms) + {Strip(GroupText(content, m))}
  {
    var t := ms + [m];
    assert forall k :: 0 <= k < |ms| ==> t[k] == ms[k];
    assert t[|ms|] == m;
  }

  /** The loop of `existing_entries`: add the stripped text of each match in turn. */
  method CollectTexts(content: string, ms: seq<Match>) returns (texts: set<string>)
    requires forall k :: 0 <= k < |ms| ==> Fits(ms[k], content)
    ensures texts == MatchTexts(content, ms)
  {
    texts := {};
    for k := 0 to |ms|
      invariant texts == MatchTexts(content, ms[..k])
    {
      assert ms[..k + 1] == ms[..k] + [ms[k]];
      MatchTextsSnoc(content, ms[..k], ms[k]);
      texts := texts + {Strip(GroupText(content, ms[k]))};
    }
    assert ms[..|ms|] == ms;
  }

  /** `existing_entries`: the stripped text of every `old` entry the re-parse finds in an existing file. */
  function ExistingTexts(content: string): set<string> {
    MatchTexts(content, FindAll(OldEntry, content))
  }

  /** The list comprehension of the skip-translated filter: the entries whose stripped text is not an existing `old` text, in order. */
  function Unwritten(entries: seq<Entry>, existing: set<string>): (r: seq<Entry>)
    ensures |r| <= |entries|
    ensures forall e :: e in r <==> e in entries && Strip(e.text) !in existing
  {
    if entries == [] then []
    else
      var init := entries[..|entries| - 1];
      var last := entries[|entries| - 1];
      assert forall e :: e in entries <==> e in init || e == last;
      Unwritten(init, existing) + (if Strip(last.text) in existing then [] else [last])
  }

  /**
   * `new_entries`: with skip-translated set and an existing destination,
   * the entries not already written there; all of them when the
   * destination cannot be read.
   */
  function NewEntries(cfg: Config, files: map<string, string>, unreadable: set<string>, dst: string, entries: seq<Entry>): seq<Entry> {
    if dst in files && cfg.skipTranslated then
      match ReadResult(files, unreadable, dst)
      case None => entries
      case Some(content) => Unwritten(entries, ExistingTexts(content))
    else entries
  }

  /** The skip-translated filter never adds entries, and drops nothing when the flag is off, the destination is absent or unreadable. */
  lemma NewEntriesSpec(cfg: Config, files: map<string, string>, unreadable: set<string>, dst: string, entries: seq<Entry>)
    ensures var r := NewEntries(cfg, files, unreadable, dst, entries);
      |r| <= |entries| && (forall e :: e in r ==> e in entries)
      && (!cfg.skipTranslated || dst !in files || dst in unreadable ==> r == entries)
      && (cfg.skipTranslated && dst in files && dst !in unreadable ==>
            forall e :: e in r <==> e in entries && Strip(e.text) !in ExistingTexts(files[dst]))
  {
  }

  /** What the generation step changes: the files, the directories, and the count of entries written. */
  datatype Written = Written(files: map<string, string>, dirs: set<string>, count: nat)

  /** What the generation step sees besides the files: the writers and what makes I/O raise. */
  datatype Sinks = Sinks(
    cfg: Config,
    translationDir: string,
    unreadable: set<string>,
    unwritable: set<string>,
    writers: map<string, W.Writer>,
    dump: Json -> string,
    formatCsv: seq<seq<string>> -> string)

  /** The destination of a source file: its path under `<game_dir>/game`, placed under the translation directory. */
  function RelPathOf(cfg: Config, src: string): string {
    RelPath(src, Join(cfg.gameDir, "game"))
  }

  /**
   * One turn of the generation loop: compute the destination, filter the
   * entries, and hand the rest to the writer registered as `renpy`; count
   * them only when it returns True.
   */
  function WriteStep(k: Sinks, acc: Written, src: string, entries: seq<Entry>): Written {
    if entries == [] then acc
    else
      var rel := RelPathOf(k.cfg, src);
      var dst := Join(k.translationDir, rel);
      var pending := NewEntries(k.cfg, acc.files, k.unreadable, dst, entries);
      if pending == [] then acc
      else Emit(k, acc, dst, rel, pending)
  }

  /**
   * `write_translation_file("renpy", …)` and the count: nothing when no
   * writer is registered under `renpy`; otherwise the writer's directories
   * and output, counted only when it returns True.
   */
  function Emit(k: Sinks, acc: Written, dst: string, rel: string, pending: seq<Entry>): Written {
    if W.RenpyName !in k.writers then acc
    else
      var w := k.writers[W.RenpyName];
      var dirs := acc.dirs + W.MadeDirs(dst, acc.dirs, k.unwritable);
      match W.Output(w, acc.files, acc.dirs, k.unreadable, k.unwritable, dst, rel, pending, k.dump, k.formatCsv)
      case None => Written(acc.files, dirs, acc.count)
      case Some(text) => Written(acc.files[W.Target(w, dst) := text], dirs, acc.count + |pending|)
  }


  /** The entries recorded for a file, empty when it is not recorded. */
  function EntriesOf(found: map<string, seq<Entry>>, p: string): seq<Entry> {
    if p in found then found[p] else []
  }

  /** The generation loop over the dict's keys in order. */
  function Generate(k: Sinks, acc: Written, order: seq<string>, found: map<string, seq<Entry>>): Written {
    if order == [] then acc
    else
      var init := order[..|order| - 1];
      var p := order[|order| - 1];
      WriteStep(k, Generate(k, acc, init, found), p, EntriesOf(found, p))
  }

  /** The total the generation step computes first: the number of entries over all recorded files. */
  function Total(order: seq<string>, found: map<string, seq<Entry>>): nat {
    if order == [] then 0
    else Total(order[..|order| - 1], found) + |EntriesOf(found, order[|order| - 1])|
  }

  /** With the loop invariant, the total is zero exactly when no file was recorded. */
  lemma {:induction false} TotalZeroIff(st: Found)
    requires WellFormed(st)
    ensures Total(st.order, st.entries) == 0 <==> st.order == []
  {
    if st.order != [] {
      var p := st.order[|st.order| - 1];
      assert p in st.entries;
      assert |EntriesOf(st.entries, p)| > 0;
    }
  }

  /** The count only grows, by at most the number of entries handed over: never more than the total. */
  lemma {:induction false} GenerateCountBound(k: Sinks, acc: Written, order: seq<string>, found: map<string, seq<Entry>>)
    ensures acc.count <= Generate(k, acc, order, found).count <= acc.count + Total(order, found)
    decreases |order|
  {
    if order != [] {
      var init := order[..|order| - 1];
      var p := order[|order| - 1];
      GenerateCountBound(k, acc, init, found);
      var mid := Generate(k, acc, init, found);
      var es := EntriesOf(found, p);
      if es != [] {
        NewEntriesSpec(k.cfg, mid.files, k.unreadable, Join(k.translationDir, RelPathOf(k.cfg, p)), es);
      }
    }
  }

  /** Every file of `before` is still in `after`, with its old content as a prefix. */
  ghost predicate Appended(before: map<string, string>, after: map<string, string>) {
    forall p :: p in before ==> p in after && |before[p]| <= |after[p]| && after[p][..|before[p]|] == before[p]
  }

  /** Appending twice is appending. */
  lemma AppendedTrans(a: map<string, string>, b: map<string, string>, c: map<string, string>)
    requires Appended(a, b) && Appended(b, c)
    ensures Appended(a, c)
  {
    forall p | p in a ensures p in c && |a[p]| <= |c[p]| && c[p][..|a[p]|] == a[p] {
      assert c[p][..|a[p]|] == c[p][..|b[p]|][..|a[p]|];
    }
  }

  /** Replacing one file by a text that starts with its old content only appends. */
  lemma AppendedByUpdate(files: map<string, string>, path: string, text: string)
    requires var before := if path in files then files[path] else [];
      |before| <= |text| && text[..|before|] == before
    ensures Appended(files, files[path := text])
  {
  }

  /** With the Ren'Py writer registered as `renpy`, one turn of the generation loop only appends. */
  lemma WriteStepAppends(k: Sinks, acc: Written, src: string, entries: seq<Entry>)
    requires W.RenpyName in k.writers && k.writers[W.RenpyName] == W.RenpyWriter
    ensures Appended(acc.files, WriteStep(k, acc, src, entries).files)
  {
    if entries != [] {
      var rel := RelPathOf(k.cfg, src);
      var dst := Join(k.translationDir, rel);
      var pending := NewEntries(k.cfg, acc.files, k.unreadable, dst, entries);
      if pending != [] {
        var out := W.Output(W.RenpyWriter, acc.files, acc.dirs, k.unreadable, k.unwritable, dst, rel, pending, k.dump, k.formatCsv);
        if out.Some? {
          W.RenpyOutputAppends(acc.files, acc.dirs, k.unreadable, k.unwritable, dst, rel, pending, k.dump, k.formatCsv);
          AppendedByUpdate(acc.files, dst, out.value);
        }
      }
    }
  }

  /**
   * With the Ren'Py writer registered as `renpy`, generation only appends:
   * no file disappears and every existing file keeps its content as a
   * prefix.
   */
  lemma {:induction false} GenerateOnlyAppends(k: Sinks, acc: Written, order: seq<string>, found: map<string, seq<Entry>>)
    requires W.RenpyName in k.writers && k.writers[W.RenpyName] == W.RenpyWriter
    ensures Appended(acc.files, Generate(k, acc, order, found).files)
    decreases |order|
  {
    if order != [] {
      var init := order[..|order| - 1];
      var q := order[|order| - 1];
      GenerateOnlyAppends(k, acc, init, found);
      var mid := Generate(k, acc, init, found);
      WriteStepAppends(k, mid, q, EntriesOf(found, q));
      AppendedTrans(acc.files, mid.files, Generate(k, acc, order, found).files);
    }
  }

  // ---------------------------------------------------------------------
  // The run

  class TranslationExtractor {
    const config: Config
    const extractorFactory: X.ExtractorRegistry
    const validatorFactory: V.ValidatorRegistry
    const writerFactory: W.WriterRegistry

    /** `__init__`: the configuration and fresh registries with the built-in rules, validators and writers. */
    constructor(config: Config, dump: Json -> string, formatCsv: seq<seq<string>> -> string)
      ensures this.config == config
      ensures extractorFactory.extractors == X.Builtins()
      ensures validatorFactory.validators == V.Builtins() && validatorFactory.order == V.BuiltinNames
      ensures writerFactory.writers == W.Builtins()
    {
      this.config := config;
      extractorFactory := new X.ExtractorRegistry();
      validatorFactory := new V.ValidatorRegistry();
      writerFactory := new W.WriterRegistry(dump, formatCsv);
    }

    /** What the extraction step sees, with the registries as they are now. */
    function SourcesOf(fs: Disk): Sources
      reads this, fs, extractorFactory, validatorFactory
    {
      Sources(config, fs.files, fs.unreadable, extractorFactory.extractors, validatorFactory.validators)
    }

    /** The `validated_entries` loop over one file's entries. */
    method ValidateEntries(es: seq<Entry>) returns (valid: seq<Entry>)
      ensures valid == Validated(validatorFactory.validators, config.validators, es)
    {
      valid := [];
      for j := 0 to |es|
        invariant valid == Validated(validatorFactory.validators, config.validators, es[..j])
      {
        ValidatedStep(validatorFactory.validators, config.validators, es, j);
        var ok, _ := validatorFactory.ValidateText(es[j].text, Some(config.validators));
        if ok {
          valid := valid + [es[j]];
        }
      }
      assert es[..|es|] == es;
    }

    /** The `unique_entries` loop: keep the unseen texts, marking each kept text as seen. */
    method Deduplicate(seen0: set<string>, valid: seq<Entry>) returns (unique: seq<Entry>, seen: set<string>)
      ensures unique == Kept(seen0, valid)
      ensures seen == seen0 + Texts(valid)
    {
      unique, seen := [], seen0;
      for j := 0 to |valid|
        invariant unique == Kept(seen0, valid[..j])
        invariant seen == seen0 + Texts(valid[..j])
      {
        var e := valid[j];
        assert valid[..j + 1] == valid[..j] + [e];
        assert valid[..j + 1][..j] == valid[..j];
        TextsSnoc(valid[..j], e);
        if e.text !in seen {
          seen := seen + {e.text};
          unique := unique + [e];
        }
      }
      assert valid[..|valid|] == valid;
    }

    /** The body of the file loop for one path: read, extract, validate, deduplicate, record. */
    method ProcessFile(fs: Disk, st: Found, path: string) returns (next: Found)
      ensures next == FileStep(SourcesOf(fs), st, path)
    {
      var content := fs.Read(path);
      if content.None? {
        return st;
      }
      var entries := extractorFactory.ExtractFromContent(content.value, path, config.extractors);
      if entries.None? {
        return st;
      }
      var valid := ValidateEntries(entries.value);
      next := st;
      if valid != [] {
        var unique, seen := Deduplicate(st.seen, valid);
        next := next.(seen := seen);
        if unique != [] {
          var order := if path in st.entries then st.order else st.order + [path];
          next := Found(seen, order, st.entries[path := unique]);
        }
      }
    }

    /**
     * `_extract_strings`: the file loop, with a progress report before
     * each file and a final one; what it records is `Run` over the files,
     * so it keeps the dedup guarantee of `RunKeeps`.
     */
    method ExtractStrings(fs: Disk, files: seq<string>) returns (found: Found, progress: seq<(nat, nat)>)
      ensures found == Run(SourcesOf(fs), Start, files)
      ensures progress == Progress(|files|)
    {
      found := Start;
      progress := [];
      for i := 0 to |files|
        invariant found == Run(SourcesOf(fs), Start, files[..i])
        invariant progress == Progress(|files|)[..i]
      {
        progress := progress + [(i, |files|)];
        assert files[..i + 1][..i] == files[..i];
        found := ProcessFile(fs, found, files[i]);
      }
      assert files[..|files|] == files;
      progress := progress + [(|files|, |files|)];
    }

    /** The `existing_entries` loop over the `old` matches of an existing translation file. */
    method ReadExistingTexts(content: string) returns (existing: set<string>)
      ensures existing == ExistingTexts(content)
    {
      existing := CollectTexts(content, FindAll(OldEntry, content));
    }

    /** The sum of the recorded files' entry counts. */
    method CountEntries(found: Found) returns (total: nat)
      ensures total == Total(found.order, found.entries)
    {
      total := 0;
      for k := 0 to |found.order|
        invariant total == Total(found.order[..k], found.entries)
      {
        assert found.order[..k + 1][..k] == found.order[..k];
        var p := found.order[k];
        if p in found.entries {
          total := total + |found.entries[p]|;
        }
      }
      assert found.order[..|found.order|] == found.order;
    }

    /** What the generation step sees, with the writer registry as it is now. */
    function SinksOf(fs: Disk, translationDir: string): Sinks
      reads this, fs, writerFactory
    {
      Sinks(config, translationDir, fs.unreadable, fs.unwritable, writerFactory.writers, writerFactory.dump, writerFactory.formatCsv)
    }

    /** One turn of the generation loop. */
    method WriteFile(fs: Disk, translationDir: string, src: string, entries: seq<Entry>, count: nat) returns (newCount: nat)
      modifies fs
      ensures Written(fs.files, fs.dirs, newCount)
        == WriteStep(old(SinksOf(fs, translationDir)), Written(old(fs.files), old(fs.dirs), count), src, entries)
      ensures fs.unreadable == old(fs.unreadable) && fs.unwritable == old(fs.unwritable)
    {
      newCount := count;
      if entries == [] {
        return;
      }
      var rel := RelPath(src, Join(config.gameDir, "game"));
      var dst := Join(translationDir, rel);
      var pending := PendingEntries(fs, dst, entries);
      if pending == [] {
        return;
      }
      newCount := EmitFile(fs, translationDir, dst, rel, pending, count);
    }

    /** Hand the entries to the writer registered as `renpy`, counting them when it succeeds. */
    method EmitFile(fs: Disk, translationDir: string, dst: string, rel: string, pending: seq<Entry>, count: nat) returns (newCount: nat)
      modifies fs
      ensures Written(fs.files, fs.dirs, newCount)
        == Emit(old(SinksOf(fs, translationDir)), Written(old(fs.files), old(fs.dirs), count), dst, rel, pending)
      ensures fs.unreadable == old(fs.unreadable) && fs.unwritable == old(fs.unwritable)
    {
      var ok := writerFactory.WriteTranslationFile(W.RenpyName, fs, dst, pending, rel);
      newCount := if ok then count + |pending| else count;
    }

    /** The skip-translated filter for one destination. */
    method PendingEntries(fs: Disk, dst: string, entries: seq<Entry>) returns (pending: seq<Entry>)
      ensures pending == NewEntries(config, fs.files, fs.unreadable, dst, entries)
    {
      pending := entries;
      if dst in fs.files && config.skipTranslated {
        var content := fs.Read(dst);
        if content.Some? {
          var existing := ReadExistingTexts(content.value);
          pending := Unwritten(entries, existing);
        }
      }
    }

    /** `_generate_translation_files`: nothing when there is nothing to write, else the generation loop. */
    method GenerateTranslationFiles(fs: Disk, found: Found, translationDir: string) returns (count: nat)
      modifies fs
      ensures Total(found.order, found.entries) == 0 ==> count == 0 && fs.files == old(fs.files) && fs.dirs == old(fs.dirs)
      ensures Total(found.order, found.entries) != 0 ==>
        var r := Generate(old(SinksOf(fs, translationDir)), Written(old(fs.files), old(fs.dirs), 0), found.order, found.entries);
        fs.files == r.files && fs.dirs == r.dirs && count == r.count
      ensures fs.unreadable == old(fs.unreadable) && fs.unwritable == old(fs.unwritable)
    {
      var total := CountEntries(found);
      if total == 0 {
        return 0;
      }
      ghost var k := SinksOf(fs, translationDir);
      ghost var acc0 := Written(fs.files, fs.dirs, 0);
      count := 0;
      for i := 0 to |found.order|
        invariant k == SinksOf(fs, translationDir)
        invariant Generate(k, acc0, found.order[..i], found.entries) == Written(fs.files, fs.dirs, count)
      {
        assert found.order[..i + 1][..i] == found.order[..i];
        var p := found.order[i];
        count := WriteFile(fs, translationDir, p, EntriesOf(found.entries, p), count);
      }
      assert found.order[..|found.order|] == found.order;
    }

    /**
     * `extract` without the `reset_deduplication` call: 0 without a game
     * directory, without its `game` folder or without files to process;
     * None when creating the translation directory raises; otherwise the
     * number of entries written. `globbed` is what `glob` returned.
     */
    method Extract(fs: Disk, globbed: seq<string>) returns (r: Option<nat>, progress: seq<(nat, nat)>)
      modifies fs
      ensures config.gameDir == [] ==> r == Some(0) && progress == [] && fs.files == old(fs.files) && fs.dirs == old(fs.dirs)
      ensures config.gameDir != [] && Join(config.gameDir, "game") !in old(fs.dirs) ==>
        r == Some(0) && progress == [] && fs.files == old(fs.files) && fs.dirs == old(fs.dirs)
      ensures config.gameDir != [] && Join(config.gameDir, "game") in old(fs.dirs) ==>
        var tl := Join(config.gameDir, config.translationDir);
        var files := OutsideDir(globbed, tl);
        var found := Run(old(SourcesOf(fs)), Start, files);
        var made := tl in old(fs.dirs) || tl !in old(fs.unwritable);
        (!made ==> r.None? && fs.files == old(fs.files) && fs.dirs == old(fs.dirs))
        && (made && files == [] ==> r == Some(0) && fs.files == old(fs.files) && fs.dirs == old(fs.dirs) + {tl})
        && (made && files != [] ==>
              progress == Progress(|files|)
              && (Total(found.order, found.entries) == 0 ==> r == Some(0) && fs.files == old(fs.files) && fs.dirs == old(fs.dirs) + {tl})
              && (Total(found.order, found.entries) != 0 ==>
                    var w := Generate(old(SinksOf(fs, tl)), Written(old(fs.files), old(fs.dirs) + {tl}, 0), found.order, found.entries);
                    r == Some(w.count) && fs.files == w.files && fs.dirs == w.dirs))
      ensures fs.unreadable == old(fs.unreadable) && fs.unwritable == old(fs.unwritable)
    {
      progress := [];
      if config.gameDir == [] {
        return Some(0), progress;
      }
      var gameDir := Join(config.gameDir, "game");
      if gameDir !in fs.dirs {
        return Some(0), progress;
      }
      var tl := Join(config.gameDir, config.translationDir);
      if tl !in fs.dirs && tl in fs.unwritable {
        return None, progress;
      }
      fs.MakeDirs(tl);
      var files := FindFiles(fs, globbed, tl);
      if files == [] {
        return Some(0), progress;
      }
      var found;
      found, progress := ExtractStrings(fs, files);
      var count := GenerateTranslationFiles(fs, found, tl);
      return Some(count), progress;
    }

    /** `_find_files` after globbing: drop the paths under the translation directory when it exists. */
    method FindFiles(fs: Disk, globbed: seq<string>, tl: string) returns (files: seq<string>)
      ensures files == if tl in fs.dirs then OutsideDir(globbed, tl) else globbed
    {
      files := globbed;
      if tl in fs.dirs {
        files := OutsideDir(globbed, tl);
      }
    }

    /**
     * `extract` as written: after the empty-directory test it calls
     * `self.validator_factory.reset_deduplication()`, which the validator
     * registry does not define, so the call raises AttributeError (None)
     * for every configuration that names a game directory.
     */
    method ExtractAsWritten(fs: Disk, globbed: seq<string>) returns (r: Option<nat>)
      ensures config.gameDir == [] ==> r == Some(0)
      ensures config.gameDir != [] ==> r.None?
    {
      if config.gameDir == [] {
        return Some(0);
      }
      // `reset_deduplication` is not an attribute of the validator registry: the call raises.
      ResetDeduplicationUndefined();
      return None;
    }
  }

  /** The call in `extract` names no method of the validator registry. */
  lemma ResetDeduplicationUndefined()
    ensures "reset_deduplication" !in V.RegistryMethodNames
  {
  }
}
