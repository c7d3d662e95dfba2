/**
 * core/factories/extractor_factory.py: the name -> extraction rule map and
 * the run that applies a list of rules to one file's content.
 *
 * A rule takes the content and the file path. It returns the entries it
 * finds, or None when it raises; `extract_from_content` does not catch,
 * so one raising rule makes the whole run raise.
 */
module ExtractorFactory {
  import opened Wrappers
  import opened Common
  import opened CustomProperties
  import opened Seqs

  /** An extraction rule over `(content, filepath)`; None: it raises. */
  type Extractor = (string, string) -> Option<seq<Entry>>

  const DescriptionName: string := "description"
  const PurchaseNotificationName: string := "purchase_notification"
  const UnlockNotificationName: string := "unlock_notification"

  /**
   * The rules `__init__` registers: the `description`,
   * `purchase_notification` and `unlock_notification` property rules
   * (assignment type 1), which never raise.
   */
  function Builtins(): (m: map<string, Extractor>)
    ensures m.Keys == {DescriptionName, PurchaseNotificationName, UnlockNotificationName}
    ensures forall name, c, f :: name in m ==> m[name](c, f).Some?
    ensures forall name, c, f :: name in m ==> m[name](c, f) == Some(PropertyEntries(c, name, 1))
  {
    map[
      DescriptionName := (c: string, f: string) => Some(FixedRule(c, 0)),
      PurchaseNotificationName := (c: string, f: string) => Some(FixedRule(c, 1)),
      UnlockNotificationName := (c: string, f: string) => Some(FixedRule(c, 2))
    ]
  }

  // ---------------------------------------------------------------------
  // The import the registry's rules come from

  /** The names `core/extractors_impl/rpy_properties.py` binds at module level: its imports and its two rules. */
  const RpyPropertiesNames: set<string> := {
    "re", "List", "Tuple",
    "MULTILINE_COMMENT_PATTERN", "SINGLE_LINE_COMMENT_PATTERN", "RENPY_NOTIFY_PATTERN", "STRING_PATTERN",
    "extract_with_pattern", "extract_string_value", "get_comment_ranges", "is_in_comments", "get_line_number",
    "extract_renpy_notify", "extract_dict_keys"
  }

  /** The functions `core/extractors_impl/custom_properties.py` defines. */
  const CustomPropertiesRules: set<string> := {
    "get_custom_properties", "extract_custom_property", "extract_all_custom_properties",
    "extract_description", "extract_purchase_notification", "extract_unlock_notification",
    "extract_title_text", "extract_description_text", "extract_name", "extract_sponsor_description",
    "extract_tooltip", "extract_text", "extract_textbutton",
    "extract_available_tooltip", "extract_unavailable_tooltip", "extract_unavailable_notification"
  }

  /** The names the registry's three rules are imported under, in the order of the import. */
  const ImportedRules: seq<string> := ["extract_description", "extract_purchase_notification", "extract_unlock_notification"]

  /**
   * `from module import a, b, …`: the first name the module does not
   * bind, on which the import raises `ImportError`; None when every name
   * is bound.
   */
  function MissingImport(bound: set<string>, names: seq<string>): (r: Option<string>)
    ensures r.None? <==> forall k :: 0 <= k < |names| ==> names[k] in bound
    ensures r.Some? ==> r.value !in bound && exists k :: 0 <= k < |names| && names[k] == r.value
  {
    if names == [] then None
    else if names[0] !in bound then Some(names[0])
    else
      var r := MissingImport(bound, names[1..]);
      assert forall k :: 1 <= k < |names| ==> names[k] == names[1..][k - 1];
      r
  }

  /**
   * Loading `extractor_factory.py` as written: the import from
   * `rpy_properties` runs first, and the registry's rules are available
   * only when it does not raise.
   */
  function LoadAsWritten(): (r: Option<map<string, Extractor>>)
    ensures r.Some? ==> r.value == Builtins()
  {
    if MissingImport(RpyPropertiesNames, ImportedRules).Some? then None else Some(Builtins())
  }

  /**
   * As written, the import raises on its first name: `rpy_properties`
   * binds none of the three, so the module, and every module importing
   * it, fails to load.
   */
  lemma ImportAsWrittenRaises()
    ensures MissingImport(RpyPropertiesNames, ImportedRules) == Some("extract_description")
    ensures forall k :: 0 <= k < |ImportedRules| ==> ImportedRules[k] !in RpyPropertiesNames
    ensures LoadAsWritten().None?
  {
  }

  /** `custom_properties` binds all three names, so importing from there succeeds. */
  lemma ImportFromCustomProperties()
    ensures MissingImport(CustomPropertiesRules, ImportedRules).None?
  {
    assert ImportedRules[0] in CustomPropertiesRules;
    assert ImportedRules[1] in CustomPropertiesRules;
    assert ImportedRules[2] in CustomPropertiesRules;
  }

  /**
   * The result of `extract_from_content`: the registered rules among
   * `names`, applied in the order given, their entries concatenated; an
   * unknown name contributes nothing. None once a rule raises.
   */
  function Combined(extractors: map<string, Extractor>, content: string, path: string, names: seq<string>): Option<seq<Entry>>
  {
    if names == [] then Some([])
    else
      match Combined(extractors, content, path, names[..|names| - 1])
      case None => None
      case Some(init) =>
        var name := names[|names| - 1];
        if name !in extractors then Some(init)
        else
          match extractors[name](content, path)
          case None => None
          case Some(found) => Some(init + found)
  }

  /** The run over `a + b` is the run over `a` followed by the run over `b`; a raise in either raises. */
  lemma {:induction false} CombinedAppend(extractors: map<string, Extractor>, content: string, path: string, a: seq<string>, b: seq<string>)
    ensures Combined(extractors, content, path, a + b) ==
      match Combined(extractors, content, path, a)
      case None => None
      case Some(x) =>
        match Combined(extractors, content, path, b)
        case None => None
        case Some(y) => Some(x + y)
    decreases |b|
  {
    if b == [] {
      assert a + b == a;
      if Combined(extractors, content, path, a).Some? {
        var x := Combined(extractors, content, path, a).value;
        assert x + [] == x;
      }
    } else {
      var b0 := b[..|b| - 1];
      assert (a + b)[..|a + b| - 1] == a + b0;
      assert (a + b)[|a + b| - 1] == b[|b| - 1];
      CombinedAppend(extractors, content, path, a, b0);
      if Combined(extractors, content, path, a).Some? && Combined(extractors, content, path, b0).Some? {
        var x := Combined(extractors, content, path, a).value;
        var y := Combined(extractors, content, path, b0).value;
        var name := b[|b| - 1];
        if name in extractors && extractors[name](content, path).Some? {
          AppendAssoc(x, y, extractors[name](content, path).value);
        }
      }
    }
  }

  /** A single registered name runs that rule; a single unknown name gives nothing. */
  lemma CombinedSingle(extractors: map<string, Extractor>, content: string, path: string, name: string)
    ensures Combined(extractors, content, path, [name]) ==
      if name in extractors then extractors[name](content, path) else Some([])
  {
    assert [name][..0] == [];
    if name in extractors && extractors[name](content, path).Some? {
      assert [] + extractors[name](content, path).value == extractors[name](content, path).value;
    }
  }

  /** An unknown name does not stop the run and contributes nothing, wherever it stands. */
  lemma UnknownExtractorSkipped(extractors: map<string, Extractor>, content: string, path: string, a: seq<string>, name: string, b: seq<string>)
    requires name !in extractors
    ensures Combined(extractors, content, path, a + [name] + b) == Combined(extractors, content, path, a + b)
  {
    CombinedAppend(extractors, content, path, a + [name], b);
    CombinedAppend(extractors, content, path, a, [name]);
    CombinedSingle(extractors, content, path, name);
    CombinedAppend(extractors, content, path, a, b);
    if Combined(extractors, content, path, a).Some? {
      var x := Combined(extractors, content, path, a).value;
      assert x + [] == x;
    }
  }

  /** With rules that never raise, the run never raises. */
  lemma {:induction false} CombinedTotal(extractors: map<string, Extractor>, content: string, path: string, names: seq<string>)
    requires forall name :: name in extractors ==> extractors[name](content, path).Some?
    ensures Combined(extractors, content, path, names).Some?
    decreases |names|
  {
    if names != [] {
      CombinedTotal(extractors, content, path, names[..|names| - 1]);
    }
  }

  /** The registry restricted to the names in `names` that are registered: `get_extractors_by_names`. */
  function Restrict(extractors: map<string, Extractor>, names: seq<string>): (r: map<string, Extractor>)
    ensures forall name :: name in r <==> name in names && name in extractors
    ensures forall name :: name in r ==> r[name] == extractors[name]
  {
    map name | name in names && name in extractors :: extractors[name]
  }

  class ExtractorRegistry {
    /** `self.extractors`: name -> rule. */
    var extractors: map<string, Extractor>

    /** `__init__`: the three built-in property rules. */
    constructor()
      ensures extractors == Builtins()
    {
      extractors := Builtins();
    }

    /** `get_extractor`: the rule registered under `name`, or None. */
    method GetExtractor(name: string) returns (e: Option<Extractor>)
      ensures e.Some? <==> name in extractors
      ensures e.Some? ==> e.value == extractors[name]
    {
      if name in extractors {
        return Some(extractors[name]);
      }
      return None;
    }

    /** `get_all_extractors`: a copy of the map (a map value here: later registrations do not reach it). */
    method GetAllExtractors() returns (all: map<string, Extractor>)
      ensures all == extractors
    {
      all := extractors;
    }

    /** `get_extractors_by_names`: the registered rules among `names`, looked up one name at a time. */
    method GetExtractorsByNames(names: seq<string>) returns (result: map<string, Extractor>)
      ensures forall name :: name in result <==> name in names && name in extractors
      ensures forall name :: name in result ==> result[name] == extractors[name]
    {
      result := map[];
      for k := 0 to |names|
        invariant result == Restrict(extractors, names[..k])
      {
        var e := GetExtractor(names[k]);
        if e.Some? {
          result := result[names[k] := e.value];
        }
        assert names[..k + 1] == names[..k] + [names[k]];
      }
      assert names[..|names|] == names;
    }

    /** `register_extractor`: bind `name`, replacing any rule already there; always True. */
    method RegisterExtractor(name: string, extractor: Extractor) returns (ok: bool)
      modifies this
      ensures ok
      ensures extractors == old(extractors)[name := extractor]
    {
      extractors := extractors[name := extractor];
      return true;
    }

    /** `unregister_extractor`: delete `name`; True exactly when it was registered; the other rules stay. */
    method UnregisterExtractor(name: string) returns (ok: bool)
      modifies this
      ensures ok <==> name in old(extractors)
      ensures extractors == old(extractors) - {name}
    {
      if name in extractors {
        extractors := extractors - {name};
        return true;
      }
      return false;
    }

    /** `extract_from_content`: run the named rules in order and extend the result with what each finds. */
    method ExtractFromContent(content: string, path: string, names: seq<string>) returns (r: Option<seq<Entry>>)
      ensures r == Combined(extractors, content, path, names)
    {
      var result := [];
      for k := 0 to |names|
        invariant Combined(extractors, content, path, names[..k]) == Some(result)
      {
        assert names[..k + 1][..k] == names[..k];
        var e := GetExtractor(names[k]);
        if e.Some? {
          var found := e.value(content, path);
          if found.None? {
            CombinedRaises(extractors, content, path, names, k + 1);
            return None;
          }
          result := result + found.value;
        }
      }
      assert names[..|names|] == names;
      return Some(result);
    }
  }

  /** Once a rule raises, the whole run raises. */
  lemma {:induction false} CombinedRaises(extractors: map<string, Extractor>, content: string, path: string, names: seq<string>, n: nat)
    requires n <= |names| && Combined(extractors, content, path, names[..n]).None?
    ensures Combined(extractors, content, path, names).None?
    decreases |names| - n
  {
    if n < |names| {
      assert names[..n + 1][..n] == names[..n];
      CombinedRaises(extractors, content, path, names, n + 1);
    } else {
      assert names[..n] == names;
    }
  }
}
