# Ren'Py translation extractor, modelled in Dafny

This project models the `core/` pipeline of a Ren'Py translation extractor.
The pipeline finds a game's script files under `<game_dir>/game` and pulls
translatable strings out of them with a configurable set of rules:

- property assignments such as `description = "..."`;
- `renpy.notify("...")` calls;
- string arrays stored under configured dictionary keys;
- fields of JSON files.

It keeps the strings that the configured validators accept and that no
earlier file already produced. For each source file it then appends a
`translate schinese strings:` block to the matching file under the
translation directory, skipping strings whose `old "..."` entry is already
there.

One Dafny module models each source file:

| module | models |
|---|---|
| `Common` | `core/extractors_impl/common.py` |
| `Patterns` | `core/regex/rpy_patterns.py`, plus the `old` re-parse expression of `core/extractor.py` |
| `RpyProperties` | `core/extractors_impl/rpy_properties.py` |
| `CustomProperties` | `core/extractors_impl/custom_properties.py` |
| `JsonFields` | `core/extractors_impl/json_fields.py` |
| `ValidatorFactory` | `core/factories/validator_factory.py` |
| `ExtractorFactory` | `core/factories/extractor_factory.py` |
| `WriterFactory` | `core/factories/writer_factory.py` |
| `Extraction` | `core/extractor.py` |
| `Events` | `core/events.py` |

Shared pieces:

- `Text` holds the Python string operations the core relies on: `strip`, `count`, `find`, `in`, `replace('"', '\\"')`, and `str()` of an integer.
- `JsonData` is the JSON value tree.
- `FileSystem` is a `Disk` class with a path-to-content map, the directories that exist, and the paths where reading or writing raises. It also holds the `os.path` functions the core uses.
- `Wrappers` and `Seqs` are small generic helpers.

How the model is shaped:

- **Regular expressions.** They are hand-written recognizers, not a regex engine.
  - `Patterns.MatchAt` gives the match the engine reports at one index.
  - `Patterns.FindAll` gives the left-to-right, non-overlapping matches that `re.finditer` reports.
  - The string-literal grammar lists the end positions in the order a backtracking engine tries them. So the alternative order of `STRING_PATTERN` shows up in the results: `"""x"""` first matches as `""`, and a property pattern captures `""` from it.
- **Imperative code stays imperative.** Code that loops and appends is a method with loop invariants. Each such method is proved equal to a specification function, and the properties are proved about that function. This covers `get_comment_ranges`, `extract_with_pattern`, the bracket scan of `extract_dict_keys`, the registries' loops, the writer's block builder, and the extraction run.
- **Mutable objects are classes.**
  - The three registries keep their name-to-function maps in fields.
  - The event manager keeps its subscriber map in a field.
  - The extraction run's file system is the `Disk`.
- **Python exceptions** become `Option` results. `None` means "this call raised". `extract_all_custom_properties`, `extract_all_json_fields` and `extract_from_content` let an exception propagate, and each file of the extraction run catches its own.

## Model

| member | source | states |
|---|---|---|
| Common.GetCommentRanges | core/extractors_impl/common.py:8-26 | the ranges are every match span of every comment pattern, pattern by pattern in the order given |
| Common.AppendSpans | core/extractors_impl/common.py:23-24 | appends each match's (start, end) in match order to the ranges collected so far |
| Common.CommentRangesAppend | core/extractors_impl/common.py:22-24 | the ranges for patterns `a + b` are the ranges for `a` followed by those for `b` |
| Common.CommentRangesAreMatchSpans | core/extractors_impl/common.py:22-24 | a range is collected iff it is the (start, end) of some match of some given pattern; every range is non-empty and inside the content |
| Common.SpansMembers | core/extractors_impl/common.py:23-24 | a range is among a match list's spans iff some match has exactly that start and end |
| Common.IsInCommentsIff | core/extractors_impl/common.py:28-39 | a position is in a comment iff some range has start <= pos <= end (inclusive at both ends; never with no ranges) |
| Common.LineNumberCountsPrefix | core/extractors_impl/common.py:41-52 | the line number is 1 + the number of newlines in `content[0:pos]` |
| Common.LineNumberInRange | core/extractors_impl/common.py:52 | a line number lies between 1 and the number of lines of the content |
| Common.LineNumberMonotone | core/extractors_impl/common.py:52 | line numbers never decrease as the position grows |
| Common.LineNumberStep | core/extractors_impl/common.py:52 | moving one position forward adds one line exactly when it steps over a newline |
| Common.DropPrefix | core/extractors_impl/common.py:64-66 | the value is unchanged, or exactly one leading `f` is removed |
| Common.DecodeLiteralIsSlice | core/extractors_impl/common.py:54-77 | the decoded text is a contiguous slice of the raw value: nothing is unescaped |
| Common.UnquoteIsSlice | core/extractors_impl/common.py:68-75 | removing the delimiters leaves a contiguous slice of the value |
| Common.DecodeDoubleQuoted | core/extractors_impl/common.py:73-75 | a `"`-quoted value that is not also triple-quoted decodes to its body |
| Common.DecodeFString | core/extractors_impl/common.py:64-66 | an `f` prefix is dropped before decoding |
| Common.DecodeTripleQuoted | core/extractors_impl/common.py:69-72 | a triple-quoted value (either quote) decodes to its body |
| Common.DecodeEmptyPair | core/extractors_impl/common.py:73-75 | the literal `""` decodes to the empty text |
| Common.KeepIffNotBlank | core/extractors_impl/common.py:122-123 | a decoded text is kept iff it is not empty or whitespace-only |
| Common.KeptEntriesAppend | core/extractors_impl/common.py:107-124 | entries for matches `a + b` are those for `a` followed by those for `b`: output follows match order |
| Common.EntryOfMembers | core/extractors_impl/common.py:109-123 | a match yields an entry iff it starts outside every comment and its decoded group is not blank; the entry holds the line of the match start and the decoded text |
| Common.EntryOfYields | core/extractors_impl/common.py:109-123 | every entry a match yields meets those conditions |
| Common.YieldsEntryOf | core/extractors_impl/common.py:109-123 | a match meeting those conditions yields that entry |
| Common.KeptEntriesMembers | core/extractors_impl/common.py:107-123 | an entry is emitted iff some match yields it |
| Common.KeptEntriesSound | core/extractors_impl/common.py:107-123 | every emitted entry comes from some match that yields it |
| Common.KeptEntryOwner | core/extractors_impl/common.py:107-123 | every emitted entry belongs to the output of one particular match |
| Common.KeptEntriesComplete | core/extractors_impl/common.py:107-123 | every entry some match yields is emitted |
| Common.KeptFromContent | core/extractors_impl/common.py:113-123 | a kept text that occurs in the content, at a valid line, is a well-formed entry |
| Common.DecodedGroupInContent | core/extractors_impl/common.py:116-119 | the decoded text of a match's group occurs verbatim in the content |
| Common.EntryOfFromContent | core/extractors_impl/common.py:109-123 | each entry a match yields is non-blank, has a line within the file and occurs verbatim in the content |
| Common.KeptEntriesFromContent | core/extractors_impl/common.py:107-124 | every entry of the generic extractor is non-blank, has a line within the file and occurs verbatim in the content |
| Common.ExtractWithPattern | core/extractors_impl/common.py:79-125 | the loop returns exactly the kept entries of the pattern's matches, outside the comment ranges, in match order |
| Common.KeepMatches | core/extractors_impl/common.py:107-123 | the loop over matches returns the concatenated per-match entries |
| Common.KeepMatch | core/extractors_impl/common.py:109-123 | one loop turn returns that match's entry or nothing |
| Common.WalkSingleMember | core/extractors_impl/common.py:147-158 | a one-member object is processed before its child, and the child is visited at level + 1 only when it is an object or list |
| Common.WalkSingleItem | core/extractors_impl/common.py:159-163 | the same for a one-item list |
| Common.ProcessNestedObjects | core/extractors_impl/common.py:127-165 | appends the pre-order walk (node at `level`, container children at `level + 1`) to the shared result |
| Common.ProcessMembers | core/extractors_impl/common.py:154-158 | the loop over an object's members appends each container member's walk, in member order |
| Common.ProcessItems | core/extractors_impl/common.py:159-163 | the loop over a list's items appends each container item's walk, in item order |
| Common.Visits | core/extractors_impl/common.py:145-163 | the pre-order visits start with the root at its level, and every visit is a node of the tree at its depth |
| Common.OutputsAppend | core/extractors_impl/common.py:145-163 | the outputs of two visit lists concatenated are the outputs of each in turn |
| Common.OutputsMembers | core/extractors_impl/common.py:145-163 | an entry is produced iff the processor yields it for one of the visits |
| Common.WalkIsOutputs | core/extractors_impl/common.py:127-165 | all inputs: the walk appends exactly the processor's output for each pre-order visit, in visiting order |
| Common.ReachedIsVisited | core/extractors_impl/common.py:145-163 | every node of the tree, at every depth, is visited at that depth |
| Common.WalkReports | core/extractors_impl/common.py:127-165 | all inputs: an entry is appended iff the processor yields it for some node of the tree at that node's depth |
| Text.LStripRemovesBlankPrefix | core/extractors_impl/common.py:122 | left strip removes a whitespace-only prefix and leaves a text that starts with a non-space |
| Text.RStripRemovesBlankSuffix | core/extractors_impl/common.py:122 | right strip removes a whitespace-only suffix and leaves a text that ends with a non-space |
| Text.StripIsTrimmedSlice | core/extractors_impl/common.py:122 | `strip()` is the slice between a blank prefix and a blank suffix and has no whitespace at either end |
| Text.StripEmptyIffBlank | core/extractors_impl/common.py:122 | `strip()` is empty iff the text is whitespace-only |
| Text.StripIdempotent | core/extractor.py:214-218 | stripping twice is stripping once |
| Text.CountBeforeIsCount | core/extractors_impl/common.py:52 | `content.count('\n', 0, pos)` is the count over `content[:pos]` |
| Text.CountBeforeMonotone | core/extractors_impl/common.py:52 | the count up to a position never decreases as the position grows |
| Text.CountCharPrefixMonotone | core/extractors_impl/common.py:52 | a longer prefix holds at least as many of a character |
| Text.CountCharAppend | core/extractors_impl/common.py:52 | counting over a concatenation adds the counts |
| Text.SliceIsSlice | core/extractors_impl/rpy_properties.py:130 | the character-by-character slice is Python's `content[i:j]` |
| Text.Find | core/extractors_impl/rpy_properties.py:94 | a found index is at or after the start and the needle fits there |
| Text.FindSpec | core/extractors_impl/rpy_properties.py:94-96 | `find` returns the first occurrence at or after the start, and reports none (-1) iff there is no occurrence there |
| Text.StartsAtIff | core/extractors_impl/rpy_properties.py:94 | the needle occurs at an index iff the slice there equals it |
| Text.ContainsIff | core/factories/writer_factory.py:48 | `p in s` iff `p` occurs at some index of `s` |
| Text.EscapeQuotes | core/factories/writer_factory.py:63 | escaping lengthens the text by exactly the number of `"` |
| Text.EscapeQuotesAppend | core/factories/writer_factory.py:63 | escaping a concatenation escapes each part |
| Text.EscapeQuotesRoundTrip | core/factories/writer_factory.py:63 | only `"` is escaped: undoing the escapes gives the text back |
| Text.EscapeQuotesInjective | core/extractors_impl/rpy_properties.py:78 | different texts escape to different texts |
| Text.NatToString | core/factories/writer_factory.py:53 | the decimal form of a natural number is a non-empty string of digits |
| Text.IntToString | core/factories/writer_factory.py:53 | the decimal form of a line number starts with `-` iff the number is negative |
| Seqs.Without | core/factories/validator_factory.py:89-91 | removing a name from the key order keeps exactly the other names, without duplicates |
| JsonData.Get | core/extractors_impl/json_fields.py:48 | a key lookup succeeds iff the object has that key, and returns that member's value |
| JsonData.GetOr | core/extractors_impl/custom_properties.py:106-108 | `dict.get(key, default)` is a member's value or the default |
| Patterns.SkipSpaces | core/regex/rpy_patterns.py:17 | greedy `\s*` stops at the end or at a non-space |
| Patterns.SkipSpacesOnlySpaces | core/regex/rpy_patterns.py:17 | `\s*` consumes whitespace only |
| Patterns.LineEnd | core/regex/rpy_patterns.py:59 | `.*?$` in multi-line mode ends at a newline or at the end |
| Patterns.LineEndFirstNewline | core/regex/rpy_patterns.py:59 | a line comment stops at the first newline |
| Patterns.QuotedEnds | core/regex/rpy_patterns.py:7 | every candidate end of a single-quoted or double-quoted literal is just past a closing quote |
| Patterns.QuotedEndsExist | core/regex/rpy_patterns.py:7 | a quoted literal has an end iff its quote occurs again later in the text |
| Patterns.QuotedEndsFirstClosing | core/regex/rpy_patterns.py:7 | the greedy end is the first quote that no backslash escapes: every quote before it is preceded by a backslash |
| Patterns.QuotedEndsDecreasing | core/regex/rpy_patterns.py:7 | the greedy `(?:\\"\|[^"])*` tries the longest literal first |
| Patterns.TripleEnd | core/regex/rpy_patterns.py:7 | a triple-quoted literal spans at least six characters and ends inside the text |
| Patterns.LiteralEnds | core/regex/rpy_patterns.py:7 | each candidate end of `STRING_PATTERN` lies at least two characters past the start |
| Patterns.GroupEnds | core/regex/rpy_patterns.py:17 | `(?:f)?STRING` ends at least two characters past its start |
| Patterns.GroupToEnd | core/regex/rpy_patterns.py:17 | a pattern that ends with the group matches from its start with the group where it began |
| Patterns.ColonValue | core/extractors_impl/custom_properties.py:61 | `[\s]*:[\s]*` and the group match inside the text from the pattern's start |
| Patterns.AfterKeyName | core/extractors_impl/custom_properties.py:61 | the optional quote after the key name, then the colon part, match inside the text |
| Patterns.FirstClosed | core/regex/rpy_patterns.py:32 | the first group end that is followed by `\s*\)` wins, and the group ends at one of the candidates |
| Patterns.EscapedRunEnd | core/extractor.py:212 | `[^"\\]*(?:\\.[^"\\]*)*` stops at the end of the text or at a `"` or backslash it cannot consume |
| Patterns.MatchAt | core/regex/rpy_patterns.py:7-59 | a match reported at an index starts there, is non-empty and lies in the text |
| Patterns.LiteralAt | core/regex/rpy_patterns.py:7 | a literal match starts at the index and lies in the text |
| Patterns.AssignAt | core/regex/rpy_patterns.py:17-42 | an `=` assignment match starts at the index and lies in the text |
| Patterns.KeyValueAt | core/extractors_impl/custom_properties.py:61 | a key-value match starts at the index and lies in the text |
| Patterns.SpacedAt | core/regex/rpy_patterns.py:45-53 | a space-separated match starts at the index and lies in the text |
| Patterns.NotifyAt | core/regex/rpy_patterns.py:32 | a `renpy.notify(...)` match starts at the index and lies in the text |
| Patterns.BlockCommentAt | core/regex/rpy_patterns.py:56 | a block comment match starts at the index and lies in the text |
| Patterns.LineCommentAt | core/regex/rpy_patterns.py:59 | a `#` comment match starts at the index and lies in the text |
| Patterns.OldEntryAt | core/extractor.py:212 | an `old` entry match starts at the index and lies in the text |
| Patterns.Scan | core/extractors_impl/common.py:107 | `finditer` from an index reports matches in the text, left to right and non-overlapping |
| Patterns.FindAll | core/extractors_impl/common.py:107 | all matches are in the text, left to right and non-overlapping |
| Patterns.ScanIsScanWith | core/extractors_impl/common.py:107 | the scan is `finditer`'s loop over the engine's match at each position |
| Patterns.ScanWithSound | core/extractors_impl/common.py:107 | every reported match is the matcher's match at its own start |
| Patterns.ScanWithComplete | core/extractors_impl/common.py:107 | the matcher has no match at any position outside all reported matches |
| Patterns.FindAllIsFinditer | core/extractors_impl/common.py:107 | all inputs: each match is the engine's match at its start, and no position before, between or after the matches starts a match |
| Patterns.TripleQuoteFirstSeenAsEmpty | core/regex/rpy_patterns.py:7 | at `"""` the first literal end tried is the `""` pair |
| Patterns.TripleQuotedPropertyCapturesEmptyPair | core/regex/rpy_patterns.py:7-17 | a property whose value is `"""..."""` captures `""` |
| Patterns.BoundaryRejectsIdentifierSuffix | core/regex/rpy_patterns.py:13-17 | `create_property_pattern` never matches right after a word character |
| Patterns.HeadmasterValue | core/regex/rpy_patterns.py:35 | in `headmaster_name = "X"` the value `"X"` is read as one literal ending the line |
| Patterns.NamePatternMatchesIdentifierSuffix | core/regex/rpy_patterns.py:35 | `NAME_PATTERN` matches the `name` suffix of `headmaster_name` |
| Patterns.AssignMatch | core/regex/rpy_patterns.py:35 | an assignment without `\b` whose name, spaces and `=` are present reads the group after them |
| Patterns.PropertyPatternRejectsIdentifierSuffix | core/regex/rpy_patterns.py:15-17 | `create_property_pattern('name')` does not match inside `headmaster_name` |
| Patterns.OldTripleBlockCapturesEmpty | core/extractor.py:212 | an `old """` block re-parses with an empty captured text |
| Patterns.OldEntryKeepsEscapes | core/extractor.py:212-214 | an escaped `\"` is captured verbatim, backslash included |
| RpyProperties.ExtractRenpyNotify | core/extractors_impl/rpy_properties.py:16-25 | `extract_renpy_notify` is the generic extractor with the notify pattern and both comment patterns; its entries come from the content |
| RpyProperties.EnabledKeysMembers | core/extractors_impl/rpy_properties.py:67-70 | with the dict form a key is used iff its enabled flag is truthy |
| RpyProperties.LeadingStrings | core/extractors_impl/rpy_properties.py:72-81 | with the list form the keys are the leading string items; the first non-string raises and ends the loading |
| RpyProperties.Characters | core/extractors_impl/rpy_properties.py:72-80 | a string given as `key_names` is iterated character by character |
| RpyProperties.KeyNamesFromFlags | core/extractors_impl/rpy_properties.py:66-70 | a loaded dict config yields exactly its enabled keys |
| RpyProperties.KeyNamesFromList | core/extractors_impl/rpy_properties.py:72-73 | a loaded list of strings is used in full |
| RpyProperties.FormatKey | core/extractors_impl/rpy_properties.py:76-80 | the search string is `"key":` with only double quotes escaped |
| RpyProperties.FormatKeyInjective | core/extractors_impl/rpy_properties.py:76-80 | different keys give different search strings |
| RpyProperties.KeyStarts | core/extractors_impl/rpy_properties.py:76-80 | one search string per key, in key order |
| RpyProperties.NestingCounts | core/extractors_impl/rpy_properties.py:110-122 | the depth after a stretch is the start depth plus its `[` minus its `]` |
| RpyProperties.BracketEnd | core/extractors_impl/rpy_properties.py:110-122 | a found bracket end is a `]` inside the content |
| RpyProperties.BracketEndCloses | core/extractors_impl/rpy_properties.py:110-122 | the bracket end is the first index at which the depth returns to 0 |
| RpyProperties.BracketEndNeverCloses | core/extractors_impl/rpy_properties.py:124-127 | no bracket end means the depth never returns to 0 |
| RpyProperties.FindMatchingBracket | core/extractors_impl/rpy_properties.py:110-122 | the depth loop returns the bracket end |
| RpyProperties.LiteralEntriesOfScan | core/extractors_impl/rpy_properties.py:133-141 | walking the `finditer` matches of the array text gives the same entries as the fused literal walk |
| RpyProperties.KeyStep | core/extractors_impl/rpy_properties.py:94-127 | one search step either ends, skips to a strictly later position, or takes a bracket span after the start |
| RpyProperties.KeyScanFromStep | core/extractors_impl/rpy_properties.py:94-144 | the scan from a position is the step's outcome followed by the scan from where the step resumes |
| RpyProperties.ExtractDictKeys | core/extractors_impl/rpy_properties.py:28-146 | `extract_dict_keys` returns the scans of all configured keys, in key order |
| RpyProperties.FormatKeys | core/extractors_impl/rpy_properties.py:76-80 | the loop builds the search strings |
| RpyProperties.ScanKeys | core/extractors_impl/rpy_properties.py:90-144 | the loop over keys concatenates each key's scan |
| RpyProperties.NextStep | core/extractors_impl/rpy_properties.py:94-127 | the find, comment and bracket tests compute the step |
| RpyProperties.ScanKey | core/extractors_impl/rpy_properties.py:92-144 | the `while True` scan for one key returns the key's scan |
| RpyProperties.ScanTurn | core/extractors_impl/rpy_properties.py:92-144 | each turn either stops or strictly advances the cursor, and keeps the remaining scan's result unchanged |
| RpyProperties.ExtractSpan | core/extractors_impl/rpy_properties.py:130-141 | the entries of one bracket span are its literals' entries |
| RpyProperties.EmitLiterals | core/extractors_impl/rpy_properties.py:133-141 | the loop over the span's literals emits their entries in order |
| RpyProperties.EmitLiteral | core/extractors_impl/rpy_properties.py:134-141 | one literal emits its non-blank text with the line of its absolute offset |
| RpyProperties.CommentedKeyAddsNothing | core/extractors_impl/rpy_properties.py:99-101 | key occurrences that all lie in comments add nothing |
| RpyProperties.CommentedKeySkipped | core/extractors_impl/rpy_properties.py:99-101 | a commented occurrence is skipped without taking a span |
| RpyProperties.CommentedKeyYieldsNothing | core/extractors_impl/rpy_properties.py:99-101 | a key that only occurs in comments yields nothing |
| RpyProperties.NoBracketAddsNothing | core/extractors_impl/rpy_properties.py:104-107 | without any `[` the scan adds nothing |
| RpyProperties.NoBracketYieldsNothing | core/extractors_impl/rpy_properties.py:104-107 | content without `[` yields nothing for any key |
| RpyProperties.LiteralEntriesFromContent | core/extractors_impl/rpy_properties.py:133-141 | every literal entry of a span occurs verbatim in the content, is non-blank and has a valid line |
| RpyProperties.LiteralEntryFromContent | core/extractors_impl/rpy_properties.py:134-141 | a literal whose decoded text occurs in the content gives a well-formed entry |
| RpyProperties.LiteralTextInContent | core/extractors_impl/rpy_properties.py:130-135 | a literal's decoded text inside the array text occurs in the whole content |
| RpyProperties.SpanEntriesFromContent | core/extractors_impl/rpy_properties.py:130-141 | every entry of a bracket span comes from the content |
| RpyProperties.KeyScanFromFromContent | core/extractors_impl/rpy_properties.py:92-144 | a scan keeps every entry well-formed |
| RpyProperties.KeyScanFromContent | core/extractors_impl/rpy_properties.py:92-144 | every entry of a key's scan is non-blank, occurs in the content and has a valid line |
| CustomProperties.PropertyPattern | core/extractors_impl/custom_properties.py:57-65 | types 1-3 have a pattern and any other type has none; type 1 is `create_property_pattern` |
| CustomProperties.ExtractCustomProperty | core/extractors_impl/custom_properties.py:37-86 | returns the generic extraction with the type's pattern, nothing for an unknown type, and only entries from the content |
| CustomProperties.PropertyEntriesMembers | core/extractors_impl/custom_properties.py:68-84 | an entry is emitted iff a match of the type's pattern starts outside comments and decodes to a non-blank text at that line |
| CustomProperties.BoundedTypesRejectIdentifierSuffix | core/extractors_impl/custom_properties.py:57-63 | types 1 and 3 never match right after a word character |
| CustomProperties.TypeCode | core/extractors_impl/custom_properties.py:108 | a `type` that is neither a number nor a boolean selects no pattern |
| CustomProperties.AllPropEntriesFails | core/extractors_impl/custom_properties.py:105-112 | once an item raises, the whole call raises |
| CustomProperties.ExtractAllCustomProperties | core/extractors_impl/custom_properties.py:88-114 | the loop computes the configured properties' entries, or raises |
| CustomProperties.ExtractProps | core/extractors_impl/custom_properties.py:105-112 | the loop over items concatenates their entries in configuration order |
| CustomProperties.ExtractProp | core/extractors_impl/custom_properties.py:106-112 | one item gives its property's entries, nothing when disabled or unnamed, or raises |
| CustomProperties.AllPropEntriesSelected | core/extractors_impl/custom_properties.py:105-112 | for well-formed items the result is the concatenation, in configuration order, over enabled items with a non-empty name, type defaulting to 1 |
| CustomProperties.PropEntriesWellFormed | core/extractors_impl/custom_properties.py:106-112 | a well-formed item yields its property's entries when selected and nothing otherwise |
| CustomProperties.AllPropEntriesFromContent | core/extractors_impl/custom_properties.py:88-114 | every entry is non-blank, occurs in the content and has a valid line |
| CustomProperties.FixedRuleFromContent | core/extractors_impl/custom_properties.py:117-169 | every entry of a fixed-name wrapper comes from the content |
| JsonFields.StripFromKeepsLines | core/extractors_impl/json_fields.py:69 | removing `//` comments keeps every line break |
| JsonFields.StripFromRemovesComments | core/extractors_impl/json_fields.py:69 | no `//` is left after removal |
| JsonFields.StripFromStart | core/extractors_impl/json_fields.py:69 | a `/` left at the front was a lone `/` of the input |
| JsonFields.FieldProcessorReports | core/extractors_impl/json_fields.py:47-49 | the processor reports iff the node is an object whose field is a string (empty included), with the node's level |
| JsonFields.ExtractFieldFromJson | core/extractors_impl/json_fields.py:31-51 | the field entries are the pre-order walk from level 1 |
| JsonFields.ExtractSpecificJsonField | core/extractors_impl/json_fields.py:53-81 | strips comments, parses, walks; a parse failure yields nothing |
| JsonFields.NestedFieldLevel | core/extractors_impl/json_fields.py:51 | an object inside a list inside the root object is reported at level 3 |
| JsonFields.FieldEntriesIff | core/extractors_impl/json_fields.py:46-51 | all inputs: `(d, v)` is reported iff some object at depth `d` (the root at 1) binds the field to the string `v` |
| JsonFields.AllFieldEntriesFails | core/extractors_impl/json_fields.py:100-103 | once a field's config raises, the whole call raises |
| JsonFields.ExtractAllJsonFields | core/extractors_impl/json_fields.py:83-105 | the loop concatenates the enabled fields' entries in configuration order |
| JsonFields.DisabledFieldContributesNothing | core/extractors_impl/json_fields.py:100-103 | a field whose `enabled` is falsy adds nothing |
| JsonFields.ExtractPersonName | core/extractors_impl/json_fields.py:127-169 | the person-name walk from level 1, or nothing on a parse failure |
| JsonFields.NameProcessorOrder | core/extractors_impl/json_fields.py:149-159 | an object yields `(-1, first_name)` iff first_name is a non-empty string, `(-2, last_name)` likewise, first before last |
| JsonFields.NameProcessorEntries | core/extractors_impl/json_fields.py:149-159 | one node yields `(-1, v)` iff it is an object whose first name is the non-empty string `v`, and `(-2, v)` likewise for the last name |
| JsonFields.FirstNamesIff | core/extractors_impl/json_fields.py:149-169 | all inputs: `(-1, v)` is reported iff some object anywhere in the document has the non-empty first name `v` |
| JsonFields.LastNamesIff | core/extractors_impl/json_fields.py:149-169 | all inputs: `(-2, v)` is reported iff some object anywhere in the document has the non-empty last name `v` |
| ValidatorFactory.NonEmptyIffNotBlank | core/factories/validator_factory.py:24-26 | `non_empty` is false exactly for empty or whitespace-only text |
| ValidatorFactory.HasAlphanumeric | core/factories/validator_factory.py:28-30 | true iff some character is alphanumeric |
| ValidatorFactory.NoInvalidChars | core/factories/validator_factory.py:32-35 | true iff no character is NUL or U+FFFD |
| ValidatorFactory.AlphanumericImpliesNonEmpty | core/factories/validator_factory.py:24-30 | a text with an alphanumeric character passes `non_empty` |
| ValidatorFactory.Builtins | core/factories/validator_factory.py:15-22 | three validators are registered under their names |
| ValidatorFactory.FirstFailure | core/factories/validator_factory.py:109-115 | the first registered validator in the list that rejects the text; none iff every registered one accepts |
| ValidatorFactory.UnknownNameSkipped | core/factories/validator_factory.py:109-115 | an unregistered name in the list changes nothing |
| ValidatorFactory.DefaultChainIff | core/factories/validator_factory.py:24-35 | all three built-in validators accept iff the text has an alphanumeric character and no invalid one |
| ValidatorFactory.ValidatorRegistry.constructor | core/factories/validator_factory.py:15-22 | starts with the three built-ins in definition order |
| ValidatorFactory.ValidatorRegistry.GetValidator | core/factories/validator_factory.py:37-50 | returns the validator iff the name is registered |
| ValidatorFactory.ValidatorRegistry.GetAllValidators | core/factories/validator_factory.py:52-59 | returns the registered map, as a value copy |
| ValidatorFactory.ValidatorRegistry.RegisterValidator | core/factories/validator_factory.py:61-77 | always succeeds and overwrites; a new name goes last in the key order |
| ValidatorFactory.ValidatorRegistry.UnregisterValidator | core/factories/validator_factory.py:79-93 | true iff the name was present; afterwards it is absent and nothing else changed |
| ValidatorFactory.ValidatorRegistry.ValidateText | core/factories/validator_factory.py:95-115 | true iff no named registered validator rejects the text; no list means all registered; it stops at the first failure |
| ValidatorFactory.FirstFailureAt | core/factories/validator_factory.py:109-113 | the chain stops at the first rejecting registered validator |
| ValidatorFactory.RegisteredValidatorApplies | core/factories/validator_factory.py:61-77 | a validator registered under a listed name that rejects the text makes validation fail |
| ExtractorFactory.Builtins | core/factories/extractor_factory.py:19-27 | three property rules are registered, none raises, and each is the assignment-type-1 property rule of its own name (custom_properties.py:117-127) |
| ExtractorFactory.MissingImport | core/factories/extractor_factory.py:6-10 | `from … import` raises iff some name is not bound by the module, and names one such name |
| ExtractorFactory.LoadAsWritten | core/factories/extractor_factory.py:6-27 | the registry's rules are available only when the import succeeds, and are then the built-in rules |
| ExtractorFactory.ImportAsWrittenRaises | core/factories/extractor_factory.py:6-10 | `rpy_properties` binds none of the three names, so the import raises on `extract_description` and the module never loads |
| ExtractorFactory.ImportFromCustomProperties | core/extractors_impl/custom_properties.py:117-127 | importing the three names from `custom_properties` succeeds |
| ExtractorFactory.CombinedAppend | core/factories/extractor_factory.py:116-125 | the results for names `a + b` are those for `a` followed by those for `b`; a raise in either raises |
| ExtractorFactory.CombinedSingle | core/factories/extractor_factory.py:117-122 | one name gives that rule's output, or nothing when it is unknown |
| ExtractorFactory.UnknownExtractorSkipped | core/factories/extractor_factory.py:117-119 | an unknown name contributes nothing and does not stop the loop |
| ExtractorFactory.CombinedTotal | core/factories/extractor_factory.py:116-125 | with rules that never raise, the call never raises |
| ExtractorFactory.CombinedRaises | core/factories/extractor_factory.py:116-125 | a rule that raises makes the whole call raise |
| ExtractorFactory.Restrict | core/factories/extractor_factory.py:63-68 | the registered names among those asked for, with their rules |
| ExtractorFactory.ExtractorRegistry.constructor | core/factories/extractor_factory.py:19-27 | starts with the three built-in rules |
| ExtractorFactory.ExtractorRegistry.GetExtractor | core/factories/extractor_factory.py:29-42 | returns the rule iff the name is registered |
| ExtractorFactory.ExtractorRegistry.GetAllExtractors | core/factories/extractor_factory.py:44-51 | returns the registered map, as a value copy |
| ExtractorFactory.ExtractorRegistry.GetExtractorsByNames | core/factories/extractor_factory.py:53-68 | returns exactly the registered names among those asked for |
| ExtractorFactory.ExtractorRegistry.RegisterExtractor | core/factories/extractor_factory.py:70-86 | always succeeds and overwrites an existing name |
| ExtractorFactory.ExtractorRegistry.UnregisterExtractor | core/factories/extractor_factory.py:88-102 | true iff the name existed; every other entry is unchanged |
| ExtractorFactory.ExtractorRegistry.ExtractFromContent | core/factories/extractor_factory.py:104-125 | the loop returns the concatenation of the named rules' outputs in the given order |
| WriterFactory.BlocksAppend | core/factories/writer_factory.py:52-65 | the blocks for entries `a + b` are those for `a` followed by those for `b` |
| WriterFactory.EntryBlockIndented | core/factories/writer_factory.py:53 | every entry block starts with the indented locator comment |
| WriterFactory.BlocksStart | core/factories/writer_factory.py:52-53 | the blocks for a non-empty list start with a space, never with the header |
| WriterFactory.HeaderChoice | core/factories/writer_factory.py:44-49 | the output starts with the header iff the file is absent or lacks the header |
| WriterFactory.GeneratedHeaderIff | core/factories/writer_factory.py:44-65 | the generated text starts with the header iff the file is absent or lacks the header |
| WriterFactory.HeaderPresentAfterWrite | core/factories/writer_factory.py:44-70 | after a write the file always contains the header |
| WriterFactory.EscapedRunOverEscaped | core/factories/writer_factory.py:63 | the re-parse expression reads an escaped single-line text through to its end |
| WriterFactory.OldLineReparsed | core/factories/writer_factory.py:63-64 | the `old "..."` line written for a single-line text re-parses to its escaped text |
| WriterFactory.OldEntryAtClosed | core/extractor.py:212 | `old "` followed by an escaped run and `"` matches with that run as group |
| WriterFactory.SingleLineEntryForm | core/factories/writer_factory.py:54-65 | text without a newline gets the single-line form |
| WriterFactory.WrittenEntryReadBack | core/factories/writer_factory.py:61-65 | a written single-line entry re-parses, and gives back its text iff the text has no `"` |
| WriterFactory.OldLineReadBack | core/factories/writer_factory.py:63-64 | an `old` line re-parses, and gives back its text iff the text has no `"` |
| WriterFactory.MultiLineReadBackEmpty | core/factories/writer_factory.py:54-60 | a written multi-line entry re-parses to an empty text |
| WriterFactory.BlockPlacement | core/factories/writer_factory.py:52-65 | the k-th entry's block sits right after the blocks of the entries before it |
| WriterFactory.EntryFormAfterLocator | core/factories/writer_factory.py:53-65 | an entry's `old`/`new` form follows right after its locator line |
| WriterFactory.ReparseTriple | core/extractor.py:212 | `old """` re-parses with an empty group |
| WriterFactory.RecordRoundTrip | core/factories/writer_factory.py:95 | a JSON record gives back its line and text, with an empty translation |
| WriterFactory.RecordsRoundTrip | core/factories/writer_factory.py:92-98 | one record per entry, in input order, each giving back its entry |
| WriterFactory.CsvRows | core/factories/writer_factory.py:127-130 | a header row, then one four-column row per entry with the path, the text and an empty translation |
| WriterFactory.Output | core/factories/writer_factory.py:25-137 | a writer produces output iff its directory exists or can be made, its target can be written, and (Ren'Py) an existing file can be read |
| WriterFactory.ExistingDirectoryAppend | core/factories/writer_factory.py:41-70 | an existing directory never stops a write, even one that could not be created: a read-only directory holding a writable file gets the blocks appended |
| WriterFactory.RenpyOutputAppends | core/factories/writer_factory.py:44-70 | the Ren'Py output keeps the old file content as a prefix and contains the header |
| WriterFactory.BuildBlocks | core/factories/writer_factory.py:52-65 | the loop builds the entry blocks |
| WriterFactory.WriteRenpyTranslation | core/factories/writer_factory.py:25-77 | true iff the directory exists or can be made, an existing file can be read and the file can be written; the file then holds the old content plus the generated text; false leaves files unchanged |
| WriterFactory.WriteJsonTranslation | core/factories/writer_factory.py:79-109 | true iff the directory exists or can be made and the `.json` sibling can be written; it then holds the dumped records, and false leaves files unchanged |
| WriterFactory.WriteCsvTranslation | core/factories/writer_factory.py:111-137 | true iff the directory exists or can be made and the `.csv` sibling can be written; it then holds the rows, and false leaves files unchanged |
| WriterFactory.Builtins | core/factories/writer_factory.py:16-23 | three writers are registered under their names |
| WriterFactory.WriterRegistry.constructor | core/factories/writer_factory.py:16-23 | starts with the three built-in writers |
| WriterFactory.WriterRegistry.GetWriter | core/factories/writer_factory.py:139-152 | returns the writer iff the name is registered |
| WriterFactory.WriterRegistry.GetAllWriters | core/factories/writer_factory.py:154-161 | returns the registered map, as a value copy |
| WriterFactory.WriterRegistry.RegisterWriter | core/factories/writer_factory.py:163-179 | always succeeds and overwrites |
| WriterFactory.WriterRegistry.UnregisterWriter | core/factories/writer_factory.py:181-195 | true iff the name existed; afterwards it is absent |
| WriterFactory.WriterRegistry.WriteTranslationFile | core/factories/writer_factory.py:197-216 | an unknown writer name gives false and changes nothing; otherwise it is that writer's result |
| FileSystem.ReadResult | core/extractor.py:118-119 | reading gives the content iff the file exists and reading does not raise |
| FileSystem.Disk.Read | core/extractor.py:118-119 | the read result of the current files |
| FileSystem.Disk.Append | core/factories/writer_factory.py:68-70 | the file ends with the new text after its old content; false on a raise, with nothing changed |
| FileSystem.Disk.Overwrite | core/factories/writer_factory.py:101-102 | the file holds exactly the text; false on a raise |
| FileSystem.Disk.MakeDirs | core/extractor.py:59 | the directory exists afterwards and no file changes |
| FileSystem.Join | core/extractor.py:52 | `os.path.join`: an absolute second part wins; otherwise the result starts with the first part and ends with the second |
| FileSystem.SplitExtRoot | core/factories/writer_factory.py:89 | the root of `splitext` is a prefix of the path |
| FileSystem.SplitExtDropsExtension | core/factories/writer_factory.py:89 | the part dropped is empty or a `.` with no further `.` or `/` |
| FileSystem.RelPath | core/extractor.py:200 | for a path under the start directory, the start, `/` and the result give back the path |
| Extraction.DefaultConfig | core/config.py:4-25 | no game directory, skip translated, no rules, `non_empty` and `no_invalid_chars` |
| Extraction.OutsideDir | core/extractor.py:96-98 | keeps exactly the paths that do not start with the translation directory |
| Extraction.Validated | core/extractor.py:128-134 | keeps exactly the entries the configured validators accept |
| Extraction.ValidatedStep | core/extractor.py:129-134 | one loop turn appends the entry iff it passes |
| Extraction.KeptSpec | core/extractor.py:137-143 | dedup keeps entries of the input, never two with the same text, and exactly the texts not seen before |
| Extraction.RunAppend | core/extractor.py:108-170 | processing files `a + b` is processing `a` then `b` |
| Extraction.FailingFileIsolated | core/extractor.py:149-170 | a file that raises changes nothing: the result is as if it were absent |
| Extraction.FileStepKeeps | core/extractor.py:108-146 | one file keeps the result well-formed and every recorded entry accepted |
| Extraction.RecordKeeps | core/extractor.py:145-146 | recording a file's unseen entries keeps the result well-formed |
| Extraction.RunKeeps | core/extractor.py:102-175 | after any file list: no text is recorded twice, each recorded file has at least one entry, and each entry came from its file and passed validation |
| Extraction.SeenNotRecordedAgain | core/extractor.py:139-143 | the seen set only grows, and a file's new entries avoid every text seen before it |
| Extraction.Progress | core/extractor.py:111-173 | `(i, total)` before file i, then `(total, total)` once at the end |
| Extraction.MatchTextsSnoc | core/extractor.py:211-214 | one more match adds its stripped text |
| Extraction.CollectTexts | core/extractor.py:211-214 | the loop collects the stripped `old` texts |
| Extraction.Unwritten | core/extractor.py:217-218 | keeps exactly the entries whose stripped text is not an existing `old` text |
| Extraction.NewEntriesSpec | core/extractor.py:204-220 | the filter applies only with skip_translated and a readable existing file; otherwise every entry is kept |
| Extraction.TotalZeroIff | core/extractor.py:184-189 | the total is 0 iff no file was recorded |
| Extraction.GenerateCountBound | core/extractor.py:180-239 | the returned count never exceeds the total entry count |
| Extraction.WriteStepAppends | core/extractor.py:195-236 | writing one file only appends to existing files |
| Extraction.GenerateOnlyAppends | core/extractor.py:193-236 | generation never changes text already in any file |
| Extraction.TranslationExtractor.constructor | core/extractor.py:16-25 | the run starts with the three registries' built-ins |
| Extraction.TranslationExtractor.ValidateEntries | core/extractor.py:128-134 | the validation loop keeps exactly the accepted entries |
| Extraction.TranslationExtractor.Deduplicate | core/extractor.py:137-143 | the dedup loop keeps the unseen texts and grows the seen set by every validated text |
| Extraction.TranslationExtractor.ProcessFile | core/extractor.py:108-170 | one file's processing is the file step |
| Extraction.TranslationExtractor.ExtractStrings | core/extractor.py:102-175 | the loop over files gives the run's result and the progress reports |
| Extraction.TranslationExtractor.ReadExistingTexts | core/extractor.py:206-214 | the stripped texts of every `old` entry of the existing file |
| Extraction.TranslationExtractor.CountEntries | core/extractor.py:180-185 | the loop sums the recorded entry counts |
| Extraction.TranslationExtractor.WriteFile | core/extractor.py:195-236 | one destination file is handled as the write step says |
| Extraction.TranslationExtractor.EmitFile | core/extractor.py:225-232 | the Ren'Py writer is called, and the count grows by the entries of a successful write only |
| Extraction.TranslationExtractor.PendingEntries | core/extractor.py:204-220 | the skip-translated filter |
| Extraction.TranslationExtractor.GenerateTranslationFiles | core/extractor.py:177-239 | a zero total returns 0 and writes nothing; otherwise files and count follow the generation |
| Extraction.TranslationExtractor.Extract | core/extractor.py:42-78 | 0 without a game directory, without a `game` folder or when no files or entries are found; raises only when the translation directory is missing and cannot be created; otherwise the count of entries written |
| Extraction.TranslationExtractor.FindFiles | core/extractor.py:80-100 | files in the translation directory are excluded when it exists |
| Extraction.TranslationExtractor.ExtractAsWritten | core/extractor.py:42-49 | as written, every call with a game directory raises |
| Extraction.ResetDeduplicationUndefined | core/extractor.py:49 | `reset_deduplication` is not among the names of the five methods `ValidatorFactory` defines (core/factories/validator_factory.py:37-115), which `ValidatorFactory.RegistryMethodNames` lists beside the registry class |
| Events.IndexOf | core/events.py:55 | the first position of a callback in its list |
| Events.RemoveFirst | core/events.py:55 | `list.remove` drops one element |
| Events.RemoveFirstDistinct | core/events.py:55 | on a duplicate-free list, remove drops exactly that callback |
| Events.RemoveFirstLast | core/events.py:55 | removing the callback just appended restores the list |
| Events.SubscribedSpec | core/events.py:31-44 | subscribing keeps the map well-formed, makes the callback a listener, adds it at most once at the end, and changes no other event |
| Events.SubscribedIdempotent | core/events.py:42-44 | subscribing twice is subscribing once |
| Events.UnsubscribedSpec | core/events.py:46-60 | unsubscribing removes the callback, deletes an emptied key and changes nothing for an unknown event or callback |
| Events.SubscribeThenUnsubscribe | core/events.py:31-60 | unsubscribing a fresh subscription restores the map |
| Events.Failures | core/events.py:73-77 | the callbacks that raise, in call order |
| Events.EventManager.constructor | core/events.py:20-29 | starts with no subscribers |
| Events.EventManager.Subscribe | core/events.py:31-44 | the new map is the subscribed map |
| Events.EventManager.Unsubscribe | core/events.py:46-60 | the new map is the unsubscribed map |
| Events.EventManager.Publish | core/events.py:62-77 | every listener is called in subscription order, those that raise are logged and the rest still run |
| Events.EventManager.ClearAllSubscribers | core/events.py:79-82 | the map becomes empty |
| Events.EventManager.ClearEvent | core/events.py:84-93 | only that key is removed |
| Events.ClearedEventSpec | core/events.py:84-93 | after clearing, the map is still well-formed and the event has no listeners |
| Events.EventHub.constructor | core/events.py:11 | no instance exists yet |
| Events.EventHub.Instance | core/events.py:13-18 | the first call creates the manager, later calls return the same one |

## Left out

- Logging, the `log`/`progress` callbacks, the events the extraction run publishes, and `gc.collect()` are left out. They do not affect any result; the progress reports are returned as a sequence instead.
- `glob.glob` and the `recursive`/`file_patterns` settings are left out; the globbed paths are an input of `Extract`.
- Text decoding is left out: a file's content is a string in the `Disk`. The source file read at `core/extractor.py:118` uses `errors='replace'` and cannot fail to decode, so there only a failure to open or read is a path in `unreadable`. The strict reads at `core/extractor.py:207` and `core/factories/writer_factory.py:48` can also fail to decode, and for those a path in `unreadable` stands for either failure.
- Loading `configs/custom_properties.json`, `configs/json_fields.json` and `configs/dict_keys.json` is an input, not file I/O. The parsed config is an `Option<Json>`, and `None` stands for a missing or unreadable file.
- `json.loads` is a function parameter `string -> Option<Json>`. `json.dump` and `csv.writer` are opaque function parameters, so the exact JSON and CSV text is not modelled; the records and rows handed to them are.
- JSON numbers are integers (`JNum(int)`); float values are not modelled. In particular a float `type` in a custom-property config (`1.0` selects the `=` pattern through `assignment_type == 1` at `core/extractors_impl/custom_properties.py:57-62`) and a float `enabled` flag (`0.0` is falsy at `core/extractors_impl/custom_properties.py:106` and `core/extractors_impl/json_fields.py:101`) are outside the model.
- JSON objects are modelled as member lists. Lookups take the first member with a key, which is Python's behaviour only when keys are distinct, as `json.loads` guarantees.
- `str.strip`, `str.isalnum`, regex `\s` and `\b` use ASCII character classes. Unicode whitespace and Unicode letters and digits are left out.
- Python's `re` engine is not modelled. Each pattern the core uses has its own recognizer that follows the engine's alternative and backtracking order for that pattern only.
- `GENERIC_KEY_PATTERN` and `COLD_KEY_PATTERN` are left out: no extractor uses them.
- `os.path.relpath` is modelled only for paths under the start directory. The run asks only for such paths.
- `os.path.exists` on the destination is "is a file in the map", and on the translation directory is "is a directory in the set".
- `os.makedirs(…, exist_ok=True)` is modelled by `CanMakeDirs` in `WriterFactory`. An empty directory name raises. A directory that already exists never raises, even when it is in `unwritable`. Any other directory raises exactly when it is in `unwritable`.
- Writes are all or nothing: a write that raises halfway through is treated as not having written.
- The registries hold functions of fixed shapes. `ExtractorFactory` holds `(content, path) -> Option<entries>`, `ValidatorFactory` holds `string -> bool`, and `WriterFactory` holds one of the three built-in writers. A callable registered from outside that has other effects, or a writer other than the three built-ins, is not modelled.
- Reentrant callbacks (a callback that subscribes or unsubscribes while `publish` runs) are left out. `publish` reports which callbacks are called and which raise.
- Events.EventManager.constructor: `__init__` returns early once the singleton exists (`core/events.py:23-24`), so an `EventManager()` built directly a second time has no `subscribers` attribute and its methods raise AttributeError. The model always starts with an empty map; only the `instance()` path (`EventHub.Instance`) is modelled faithfully.
- The module-level `subscribe`/`unsubscribe`/`publish` functions of `core/events.py` forward to the singleton and are not modelled separately. `EventHub.Instance` models the singleton.
- The import failure at `core/factories/extractor_factory.py:6-10` is listed under "## Findings". The rest of the model uses the corrected registry.
- The scan results of the run are per path in `Found.entries` plus the path order `Found.order`, which is a Python dict with insertion order.
- The `path` argument that `process_nested_objects` threads through is only used for debugging and is left out.
- `extract_display_name` and `extract_json_description` are the generic field extractor with a fixed field name (`JsonFields.DisplayNameEntries`, `JsonFields.JsonDescriptionEntries`). They carry no properties beyond those of `ExtractSpecificJsonField`.
- Patterns.MatchAt: its contract states only that the match is non-empty and starts at the index. Its exact result for each pattern is stated by the lemmas about the individual recognizers.
- Patterns.LiteralAt: its contract states only that a match starts at the index and lies in the text. The literal forms it accepts are stated by `TripleQuoteFirstSeenAsEmpty`, `QuotedEndsExist`, `QuotedEndsFirstClosing` and `QuotedEndsDecreasing`.
- Patterns.QuotedEnds: its contract states only that each end lies just past a quote. When a literal closes is `QuotedEndsExist`, and that the first end is the first quote no backslash escapes is `QuotedEndsFirstClosing`.
- Patterns.Scan: its contract states only that the matches lie in the text, in order and without overlap. That each one is the engine's match at its start and that no match is skipped is `ScanIsScanWith` with `ScanWithSound` and `ScanWithComplete`.
- Patterns.FindAll: its contract states only the shape of the result. What `re.finditer` means, each match the engine's match at its start and none between them, is `FindAllIsFinditer`.
- Patterns.AssignAt: its contract states only where a match lies. The word boundary and the captured value are stated by `BoundaryRejectsIdentifierSuffix`, `AssignMatch` and `NamePatternMatchesIdentifierSuffix`.
- Patterns.KeyValueAt: its contract states only where a match lies; the optional quotes and the colon are in its body and in `ColonValue` and `AfterKeyName`.
- Patterns.SpacedAt: its contract states only where a match lies. The word boundary is stated by `BoundedTypesRejectIdentifierSuffix`.
- Patterns.NotifyAt: its contract states only where a match lies; the closing parenthesis is `FirstClosed`.
- Patterns.BlockCommentAt: its contract states only where a match lies; the shortest triple-quoted span is in its body.
- Patterns.LineCommentAt: its contract states only where a match lies. That it stops at the first newline is `LineEndFirstNewline`.
- Patterns.TripleEnd: its contract bounds the end only; the first closing triple is in its body.
- Patterns.LiteralEnds: its contract bounds the ends only. Their order is stated by `QuotedEndsDecreasing` and `TripleQuoteFirstSeenAsEmpty`.
- Patterns.GroupEnds: its contract bounds the ends only; the optional `f` is in its body.
- Patterns.GroupToEnd: its contract states only where the match and group start. The captured text for a triple-quoted value is `TripleQuotedPropertyCapturesEmptyPair`.
- Patterns.ColonValue: its contract states only where a match lies.
- Patterns.AfterKeyName: its contract states only where a match lies.
- Patterns.FirstClosed: its contract states that the group ends at a candidate end; that it is the first such end is in its body.
- Patterns.EscapedRunEnd: its contract states where the run may stop. That it reads an escaped text through is `EscapedRunOverEscaped`.
- RpyProperties.BracketEnd: its contract states only that the end is a `]`. That it is the first index where the depth returns to 0 is `BracketEndCloses`, and `BracketEndNeverCloses` covers the case where there is none.
- Text.Find: its contract bounds the index only. That it is the first occurrence is `FindSpec`.
- Text.NatToString and Text.IntToString: their contracts state the digits and the sign, not the decimal value.
- FileSystem.SplitExtRoot: its contract states only that the root is a prefix. The dropped extension is described by `SplitExtDropsExtension`.
- Events.RemoveFirst: its contract states only the length. Which element goes is stated by `RemoveFirstDistinct` and `RemoveFirstLast`.
- Patterns.OldEntryAt: the second alternative of the re-parse expression (`"""..."""`) can never be reached, because the first alternative already matches `""`. It is stated by `OldTripleBlockCapturesEmpty` and `ReparseTriple`, not by its own contract.
- WriterFactory.Output: its contract states only when output is produced. The Ren'Py content is stated by `RenpyOutputAppends` and `GeneratedHeaderIff`; the JSON and CSV content by `RecordsRoundTrip` and `CsvRows`.
- ValidatorFactory.ValidatorRegistry.ValidateText: the short-circuit is stated through a ghost count of inspected validators (`Inspected`). The model does not show that later validators are not called, because validators are pure functions.
- Text.EscapeQuotes and WriterFactory.OldLineReadBack: a text containing a backslash is outside the read-back lemmas. The re-parse expression treats a backslash as an escape, so such a text does not read back as written.

## Findings

| source | as written | input that shows it | evidently intended | confidence | as-written member | corrected member |
|---|---|---|---|---|---|---|
| core/extractor.py:49 | `extract` calls `self.validator_factory.reset_deduplication()`, which `ValidatorFactory` does not define, so the call raises `AttributeError` | any configuration with a non-empty `game_dir` | no deduplication state needs resetting (dedup state is local to `_extract_strings`), so the call should be absent | high, not executed | Extraction.TranslationExtractor.ExtractAsWritten | Extraction.TranslationExtractor.Extract |
| core/factories/extractor_factory.py:6-10 | imports `extract_description`, `extract_purchase_notification` and `extract_unlock_notification` from `rpy_properties`, which defines none of them, so loading the module raises `ImportError` | any import of `core/extractor.py` or `core/factories` | import the three rules from `custom_properties`, which defines them as the type-1 property rules | high, not executed | ExtractorFactory.LoadAsWritten | ExtractorFactory.Builtins |
