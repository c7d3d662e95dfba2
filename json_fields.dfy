/**
 * core/extractors_impl/json_fields.py: values of a named field in a JSON
 * document, located by nesting depth instead of a line number; the
 * configured fields of `json_fields.json`; and first/last names, located
 * by the sentinels -1 and -2.
 *
 * `json.loads` is the parameter `parse` (None: the text does not parse).
 */
module JsonFields {
  import opened Wrappers
  import opened Text
  import opened Patterns
  import opened JsonData
  import opened Common

  /** The locator of a first name. */
  const FirstNameLine: int := -1
  /** The locator of a last name. */
  const LastNameLine: int := -2

  // ---------------------------------------------------------------------
  // Comment removal

  /**
   * `re.sub(r'//.*$', '', content, flags=re.MULTILINE)` from index `i`:
   * each `//`, leftmost first, is removed together with the rest of its
   * line; the newline itself stays.
   */
  function StripFrom(s: string, i: nat): string
    decreases |s| - i
  {
    if i >= |s| then []
    else if i + 1 < |s| && s[i] == '/' && s[i + 1] == '/' then StripFrom(s, LineEnd(s, i + 2))
    else [s[i]] + StripFrom(s, i + 1)
  }

  /** The text handed to `json.loads`: the content without its `//` comments. */
  function StripJsonComments(content: string): string {
    StripFrom(content, 0)
  }

  /**
   * Removal keeps every line: the stripped text has exactly the newlines
   * of the original from `i` on, and no `//` is left in it.
   */
  lemma {:induction false} StripFromKeepsLines(s: string, i: nat)
    requires i <= |s|
    ensures CountChar(StripFrom(s, i), '\n') == CountChar(s[i..], '\n')
    decreases |s| - i
  {
    if i < |s| {
      if i + 1 < |s| && s[i] == '/' && s[i + 1] == '/' {
        var k := LineEnd(s, i + 2);
        StripFromKeepsLines(s, k);
        LineEndFirstNewline(s, i + 2);
        CountCharAbsent(s[i..k], '\n');
        assert s[i..] == s[i..k] + s[k..];
        CountCharAppend(s[i..k], s[k..], '\n');
      } else {
        StripFromKeepsLines(s, i + 1);
        assert s[i..] == [s[i]] + s[i + 1..];
        CountCharAppend([s[i]], s[i + 1..], '\n');
        CountCharAppend([s[i]], StripFrom(s, i + 1), '\n');
      }
    }
  }

  /** No `//` survives the removal. */
  lemma {:induction false} StripFromRemovesComments(s: string, i: nat)
    ensures forall t :: 0 <= t < |StripFrom(s, i)| - 1 ==> !(StripFrom(s, i)[t] == '/' && StripFrom(s, i)[t + 1] == '/')
    decreases |s| - i
  {
    if i < |s| {
      if i + 1 < |s| && s[i] == '/' && s[i + 1] == '/' {
        StripFromRemovesComments(s, LineEnd(s, i + 2));
      } else {
        var rest := StripFrom(s, i + 1);
        StripFromRemovesComments(s, i + 1);
        StripFromStart(s, i + 1);
        var r := [s[i]] + rest;
        forall t | 0 <= t < |r| - 1 ensures !(r[t] == '/' && r[t + 1] == '/') {
          if t > 0 {
            assert r[t] == rest[t - 1] && r[t + 1] == rest[t];
          }
        }
      }
    }
  }

  /** A stripped text starting with `/` starts where the original has a `/` that does not open a comment. */
  lemma {:induction false} StripFromStart(s: string, i: nat)
    ensures StripFrom(s, i) != [] && StripFrom(s, i)[0] == '/' ==>
      i < |s| && s[i] == '/' && !(i + 1 < |s| && s[i + 1] == '/')
    decreases |s| - i
  {
    if i < |s| && i + 1 < |s| && s[i] == '/' && s[i + 1] == '/' {
      var k := LineEnd(s, i + 2);
      assert StripFrom(s, i) == StripFrom(s, k);
      if k < |s| {
        assert s[k] == '\n';
        assert StripFrom(s, k) == [s[k]] + StripFrom(s, k + 1);
      } else {
        assert StripFrom(s, k) == [];
      }
    }
  }

  // ---------------------------------------------------------------------
  // One field

  /** `field_processor`: an object whose field holds a string yields that string at the object's level. */
  function FieldProcessor(fieldName: string): Processor {
    (data: Json, level: int) =>
      if data.JObj? then
        match Get(data.members, fieldName)
        case Some(JStr(v)) => [Entry(level, v)]
        case _ => []
      else []
  }

  /** `extract_field_from_json` from the root at level 1. */
  function FieldEntries(data: Json, fieldName: string): seq<Entry> {
    Walk(data, FieldProcessor(fieldName), 1)
  }

  /** `extract_field_from_json`: walk the document from the root at level 1 with the field processor. */
  method ExtractFieldFromJson(data: Json, fieldName: string) returns (entries: seq<Entry>)
    ensures entries == FieldEntries(data, fieldName)
  {
    entries := ProcessNestedObjects(data, FieldProcessor(fieldName), 1, []);
  }

  /** What `extract_specific_json_field` returns: nothing when the stripped text does not parse. */
  function SpecificFieldEntries(content: string, fieldName: string, parse: string -> Option<Json>): seq<Entry>
  {
    match parse(StripJsonComments(content))
    case None => []
    case Some(data) => FieldEntries(data, fieldName)
  }

  /** `extract_specific_json_field`: strip `//` comments, parse, and walk; a parse failure gives nothing. */
  method ExtractSpecificJsonField(content: string, fieldName: string, parse: string -> Option<Json>)
    returns (entries: seq<Entry>)
    ensures entries == SpecificFieldEntries(content, fieldName, parse)
    ensures parse(StripJsonComments(content)).None? ==> entries == []
  {
    var stripped := StripJsonComments(content);
    var data := parse(stripped);
    if data.None? {
      return [];
    }
    entries := ExtractFieldFromJson(data.value, fieldName);
  }

  /** `extract_display_name`: the `display_name` field. */
  function DisplayNameEntries(content: string, parse: string -> Option<Json>): seq<Entry> {
    SpecificFieldEntries(content, "display_name", parse)
  }

  /** `extract_json_description`: the `description` field. */
  function JsonDescriptionEntries(content: string, parse: string -> Option<Json>): seq<Entry> {
    SpecificFieldEntries(content, "description", parse)
  }

  /**
   * The root is at level 1 and an object inside a list inside the root is
   * at level 3: `{"items": [{"display_name": "Sword"}]}` yields `(3, "Sword")`.
   */
  lemma NestedFieldLevel()
    ensures FieldEntries(JObj([("items", JArr([JObj([("display_name", JStr("Sword"))])]))]), "display_name")
         == [Entry(3, "Sword")]
  {
    var inner := JObj([("display_name", JStr("Sword"))]);
    var list := JArr([inner]);
    var proc := FieldProcessor("display_name");
    WalkSingleMember("display_name", JStr("Sword"), proc, 3);
    GetSingle("display_name", JStr("Sword"), "display_name");
    WalkSingleItem(inner, proc, 2);
    WalkSingleMember("items", list, proc, 1);
    assert |"items"| != |"display_name"|;
    GetSingle("items", list, "display_name");
  }

  /**
   * The field processor reports an object exactly when its field holds a
   * string (empty included), at the object's own level.
   */
  lemma FieldProcessorReports(fieldName: string, data: Json, level: int)
    ensures FieldProcessor(fieldName)(data, level) != [] <==>
      data.JObj? && Get(data.members, fieldName).Some? && Get(data.members, fieldName).value.JStr?
    ensures forall e :: e in FieldProcessor(fieldName)(data, level) ==>
      e.line == level && data.JObj? && Get(data.members, fieldName) == Some(JStr(e.text))
  {
  }

  /**
   * All inputs: `extract_field_from_json` reports `(d, v)` iff some object
   * at depth `d` of the document (the root at depth 1) binds the field to
   * the string `v`; the entries come in the walk's pre-order
   * (`WalkIsOutputs`).
   */
  lemma FieldEntriesIff(data: Json, fieldName: string, d: int, v: string)
    ensures Entry(d, v) in FieldEntries(data, fieldName)
      <==> exists n :: Reaches(data, 1, n, d) && n.JObj? && Get(n.members, fieldName) == Some(JStr(v))
  {
    var proc := FieldProcessor(fieldName);
    WalkReports(data, proc, 1, Entry(d, v));
    if Entry(d, v) in FieldEntries(data, fieldName) {
      var n, d' :| Reaches(data, 1, n, d') && Entry(d, v) in proc(n, d');
      FieldProcessorReports(fieldName, n, d');
    }
    if exists n :: Reaches(data, 1, n, d) && n.JObj? && Get(n.members, fieldName) == Some(JStr(v)) {
      var n :| Reaches(data, 1, n, d) && n.JObj? && Get(n.members, fieldName) == Some(JStr(v));
      assert proc(n, d) == [Entry(d, v)];
    }
  }

  // ---------------------------------------------------------------------
  // Every configured field

  /**
   * The `(field name, field info)` pairs `get_json_fields` hands back: the
   * `fields` object of the document; nothing when the file is missing,
   * does not parse, is not an object or has no `fields`. None: the value
   * has no `.items()`, which raises.
   */
  function FieldItems(config: Option<Json>): Option<seq<(string, Json)>>
  {
    if config.None? || !config.value.JObj? then Some([])
    else
      match Get(config.value.members, "fields")
      case None => Some([])
      case Some(JObj(members)) => Some(members)
      case Some(_) => None
  }

  /** One configured field: its values when enabled (by default); a field info that is not an object raises. */
  function FieldInfoEntries(content: string, item: (string, Json), parse: string -> Option<Json>): Option<seq<Entry>>
  {
    if !item.1.JObj? then None
    else if Truthy(GetOr(item.1.members, "enabled", JBool(true))) then Some(SpecificFieldEntries(content, item.0, parse))
    else Some([])
  }

  /** The configured fields' results, concatenated in configuration order; None once one raises. */
  function AllFieldEntries(content: string, items: seq<(string, Json)>, parse: string -> Option<Json>): Option<seq<Entry>>
  {
    if items == [] then Some([])
    else
      match AllFieldEntries(content, items[..|items| - 1], parse)
      case None => None
      case Some(a) =>
        match FieldInfoEntries(content, items[|items| - 1], parse)
        case None => None
        case Some(b) => Some(a + b)
  }

  /** Once a field raises, the whole run raises. */
  lemma {:induction false} AllFieldEntriesFails(content: string, items: seq<(string, Json)>, parse: string -> Option<Json>, n: nat)
    requires n <= |items| && AllFieldEntries(content, items[..n], parse).None?
    ensures AllFieldEntries(content, items, parse).None?
    decreases |items| - n
  {
    if n < |items| {
      assert items[..n + 1][..n] == items[..n];
      AllFieldEntriesFails(content, items, parse, n + 1);
    } else {
      assert items[..n] == items;
    }
  }

  /** What `extract_all_json_fields` returns, given the parsed configuration. */
  function AllJsonFieldEntries(content: string, config: Option<Json>, parse: string -> Option<Json>): Option<seq<Entry>>
  {
    match FieldItems(config)
    case None => None
    case Some(items) => AllFieldEntries(content, items, parse)
  }

  /** `extract_all_json_fields`: for each enabled field, in configuration order, extend with its values. */
  method ExtractAllJsonFields(content: string, config: Option<Json>, parse: string -> Option<Json>)
    returns (r: Option<seq<Entry>>)
    ensures r == AllJsonFieldEntries(content, config, parse)
  {
    var items := FieldItems(config);
    if items.None? {
      return None;
    }
    var fields := items.value;
    var entries := [];
    for k := 0 to |fields|
      invariant AllFieldEntries(content, fields[..k], parse) == Some(entries)
    {
      assert fields[..k + 1][..k] == fields[..k];
      var info := fields[k].1;
      if !info.JObj? {
        AllFieldEntriesFails(content, fields, parse, k + 1);
        return None;
      }
      if Truthy(GetOr(info.members, "enabled", JBool(true))) {
        var found := ExtractSpecificJsonField(content, fields[k].0, parse);
        entries := entries + found;
      } else {
        assert FieldInfoEntries(content, fields[k], parse) == Some([]);
        assert entries + [] == entries;
      }
    }
    assert fields[..|fields|] == fields;
    return Some(entries);
  }

  /** A field disabled in the configuration contributes nothing, wherever it stands. */
  lemma DisabledFieldContributesNothing(content: string, items: seq<(string, Json)>, parse: string -> Option<Json>, item: (string, Json))
    requires item.1.JObj? && !Truthy(GetOr(item.1.members, "enabled", JBool(true)))
    ensures AllFieldEntries(content, items + [item], parse) == AllFieldEntries(content, items, parse)
  {
    var all := items + [item];
    assert all[..|all| - 1] == items;
    if AllFieldEntries(content, items, parse).Some? {
      var a := AllFieldEntries(content, items, parse).value;
      assert a + [] == a;
    }
  }

  // ---------------------------------------------------------------------
  // Person names

  /** A non-empty string value: what `value and isinstance(value, str)` accepts. */
  predicate NonEmptyString(v: Option<Json>) {
    v.Some? && v.value.JStr? && v.value.s != []
  }

  /** `name_processor`: an object's non-empty string first name at -1, then its last name at -2. */
  const NameProcessor: Processor :=
    (data: Json, level: int) =>
      if data.JObj? then
        var first := Get(data.members, "first_name");
        var last := Get(data.members, "last_name");
        (if NonEmptyString(first) then [Entry(FirstNameLine, first.value.s)] else [])
        + (if NonEmptyString(last) then [Entry(LastNameLine, last.value.s)] else [])
      else []

  /** What `extract_person_name` returns: nothing when the stripped text does not parse. */
  function PersonNameEntries(content: string, parse: string -> Option<Json>): seq<Entry>
  {
    match parse(StripJsonComments(content))
    case None => []
    case Some(data) => Walk(data, NameProcessor, 1)
  }

  /** `extract_person_name`: strip `//` comments, parse, and walk with the name processor. */
  method ExtractPersonName(content: string, parse: string -> Option<Json>) returns (entries: seq<Entry>)
    ensures entries == PersonNameEntries(content, parse)
  {
    var stripped := StripJsonComments(content);
    var data := parse(stripped);
    if data.None? {
      return [];
    }
    entries := ProcessNestedObjects(data.value, NameProcessor, 1, []);
  }

  /**
   * For one object, the name processor emits `(-1, first)` exactly when
   * the first name is a non-empty string and `(-2, last)` exactly when the
   * last name is, the first name before the last.
   */
  lemma NameProcessorOrder(data: Json, level: int)
    ensures var r := NameProcessor(data, level);
      |r| <= 2
      && (forall e :: e in r ==> e.text != [] && (e.line == FirstNameLine || e.line == LastNameLine))
      && (|r| == 2 ==> r[0].line == FirstNameLine && r[1].line == LastNameLine)
      && (data.JObj? && NonEmptyString(Get(data.members, "first_name")) <==> exists e :: e in r && e.line == FirstNameLine)
      && (data.JObj? && NonEmptyString(Get(data.members, "last_name")) <==> exists e :: e in r && e.line == LastNameLine)
  {
    var r := NameProcessor(data, level);
    if data.JObj? {
      var first := Get(data.members, "first_name");
      var last := Get(data.members, "last_name");
      if NonEmptyString(first) {
        assert r[0] == Entry(FirstNameLine, first.value.s);
      }
      if NonEmptyString(last) {
        assert r[|r| - 1] == Entry(LastNameLine, last.value.s);
      }
    }
  }

  /**
   * One node: the name processor emits `(-1, v)` iff the node is an object
   * whose first name is the non-empty string `v`, and `(-2, v)` iff its
   * last name is.
   */
  lemma NameProcessorEntries(n: Json, d: int, v: string)
    ensures Entry(FirstNameLine, v) in NameProcessor(n, d)
      <==> n.JObj? && v != [] && Get(n.members, "first_name") == Some(JStr(v))
    ensures Entry(LastNameLine, v) in NameProcessor(n, d)
      <==> n.JObj? && v != [] && Get(n.members, "last_name") == Some(JStr(v))
  {
    var r := NameProcessor(n, d);
    NameProcessorOrder(n, d);
    if n.JObj? && v != [] && Get(n.members, "first_name") == Some(JStr(v)) {
      assert r[0] == Entry(FirstNameLine, v);
    }
    if n.JObj? && v != [] && Get(n.members, "last_name") == Some(JStr(v)) {
      assert r[|r| - 1] == Entry(LastNameLine, v);
    }
  }

  /**
   * All inputs: on a document that parses, `extract_person_name` reports
   * `(-1, v)` iff some object anywhere in it has the non-empty string `v`
   * as its first name.
   */
  lemma FirstNamesIff(data: Json, v: string)
    ensures Entry(FirstNameLine, v) in Walk(data, NameProcessor, 1)
      <==> exists n, d :: Reaches(data, 1, n, d) && n.JObj? && v != [] && Get(n.members, "first_name") == Some(JStr(v))
  {
    WalkReports(data, NameProcessor, 1, Entry(FirstNameLine, v));
    forall n, d ensures Entry(FirstNameLine, v) in NameProcessor(n, d)
      <==> n.JObj? && v != [] && Get(n.members, "first_name") == Some(JStr(v)) {
      NameProcessorEntries(n, d, v);
    }
  }

  /** The same for last names, reported at -2. */
  lemma LastNamesIff(data: Json, v: string)
    ensures Entry(LastNameLine, v) in Walk(data, NameProcessor, 1)
      <==> exists n, d :: Reaches(data, 1, n, d) && n.JObj? && v != [] && Get(n.members, "last_name") == Some(JStr(v))
  {
    WalkReports(data, NameProcessor, 1, Entry(LastNameLine, v));
    forall n, d ensures Entry(LastNameLine, v) in NameProcessor(n, d)
      <==> n.JObj? && v != [] && Get(n.members, "last_name") == Some(JStr(v)) {
      NameProcessorEntries(n, d, v);
    }
  }
}
