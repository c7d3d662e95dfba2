/**
 * core/extractors_impl/custom_properties.py: the values of a property
 * written `name = "…"`, `name: "…"` or `name "…"`, for one property, for
 * every property of the `custom_properties.json` configuration, and for
 * the fixed names of the backward-compatible rules.
 *
 * An exception that escapes a rule (a configuration entry that is not an
 * object, a non-string name) is a None result.
 */
module CustomProperties {
  import opened Wrappers
  import opened Text
  import opened Patterns
  import opened JsonData
  import opened Common

  // ---------------------------------------------------------------------
  // One property

  /**
   * The pattern built for an assignment type: 1 is `\bname\s*=\s*`, 2 is
   * `["']?name["']?[\s]*:[\s]*`, 3 is `\bname\s+`, each followed by the
   * captured `((?:f)?STRING)`. Any other type has no pattern.
   */
  function PropertyPattern(name: string, assignmentType: int): (r: Option<Pattern>)
    ensures r.Some? <==> 1 <= assignmentType <= 3
    ensures assignmentType == 1 ==> r == Some(CreatePropertyPattern(name))
  {
    if assignmentType == 1 then Some(Assign(name, true))
    else if assignmentType == 2 then Some(KeyValue(name))
    else if assignmentType == 3 then Some(Spaced(name, true))
    else None
  }

  /** What `extract_custom_property` returns: the generic extraction with the type's pattern, or nothing. */
  function PropertyEntries(content: string, name: string, assignmentType: int): seq<Entry>
  {
    match PropertyPattern(name, assignmentType)
    case None => []
    case Some(p) => PatternEntries(content, p, CommentPatterns)
  }

  /**
   * `extract_custom_property`: collect the comment ranges, build the
   * pattern for the assignment type (returning nothing for an unknown
   * type), then keep every match outside the comments whose decoded value
   * is not blank, with the line of its start.
   */
  method ExtractCustomProperty(content: string, name: string, assignmentType: int) returns (entries: seq<Entry>)
    ensures entries == PropertyEntries(content, name, assignmentType)
    ensures !(1 <= assignmentType <= 3) ==> entries == []
    ensures AllFromContent(content, entries)
  {
    var ranges := GetCommentRanges(content, CommentPatterns);
    var pattern := PropertyPattern(name, assignmentType);
    if pattern.None? {
      return [];
    }
    var ms := FindAll(pattern.value, content);
    entries := KeepMatches(content, ms, ranges);
    KeptEntriesFromContent(content, ms, ranges);
  }

  /**
   * An entry is emitted exactly when some match of the type's pattern
   * starts outside every comment and decodes to a non-blank text; the
   * entry carries that text and the line of the match start.
   */
  lemma PropertyEntriesMembers(content: string, name: string, assignmentType: int, e: Entry)
    requires 1 <= assignmentType <= 3
    ensures var ms := FindAll(PropertyPattern(name, assignmentType).value, content);
      e in PropertyEntries(content, name, assignmentType) <==>
      exists k :: 0 <= k < |ms| && Yields(content, ms[k], CommentRanges(content, CommentPatterns), e)
  {
    var ms := FindAll(PropertyPattern(name, assignmentType).value, content);
    KeptEntriesMembers(content, ms, CommentRanges(content, CommentPatterns), e);
  }

  /**
   * Types 1 and 3 start with `\b`: no match of them begins right after a
   * word character, so `headmaster_name = "X"` gives nothing for `name`.
   */
  lemma BoundedTypesRejectIdentifierSuffix(name: string, assignmentType: int, s: string, i: nat)
    requires assignmentType == 1 || assignmentType == 3
    requires 0 < i <= |s| && IsWordChar(s[i - 1])
    requires name != [] && IsWordChar(name[0])
    ensures MatchAt(PropertyPattern(name, assignmentType).value, s, i).None?
  {
    if assignmentType == 1 {
      BoundaryRejectsIdentifierSuffix(name, s, i);
    } else if i < |s| && StartsAt(s, i, name) {
      assert s[i] == s[i..i + |name|][0];
    }
  }

  // ---------------------------------------------------------------------
  // Every configured property

  /**
   * Python `==` between a JSON value and the small integers the type is
   * compared with (`True == 1`); 0 stands for a value equal to none of 1, 2, 3.
   */
  function TypeCode(j: Json): (t: int)
    ensures !(j.JNum? || j.JBool?) ==> t == 0
  {
    match j
    case JNum(n) => n
    case JBool(b) => if b then 1 else 0
    case _ => 0
  }

  /**
   * What the loop body of `extract_all_custom_properties` adds for one
   * configuration entry: its property's values when it is enabled (by
   * default) and names a property, nothing otherwise. An entry that is not
   * an object raises at `.get`; a truthy name that is not a string raises
   * in `re.escape` once a pattern is built.
   */
  function PropEntries(content: string, item: Json): Option<seq<Entry>>
  {
    if !item.JObj? then None
    else
      var m := item.members;
      if !Truthy(GetOr(m, "enabled", JBool(true))) then Some([])
      else
        var name := GetOr(m, "name", JStr(""));
        var t := TypeCode(GetOr(m, "type", JNum(1)));
        if !Truthy(name) then Some([])
        else if name.JStr? then Some(PropertyEntries(content, name.s, t))
        else if 1 <= t <= 3 then None
        else Some([])
  }

  /** The results of the configuration entries, concatenated in order; None once one raises. */
  function AllPropEntries(content: string, items: seq<Json>): Option<seq<Entry>>
  {
    if items == [] then Some([])
    else
      match AllPropEntries(content, items[..|items| - 1])
      case None => None
      case Some(a) =>
        match PropEntries(content, items[|items| - 1])
        case None => None
        case Some(b) => Some(a + b)
  }

  /** Once an entry raises, the whole run raises. */
  lemma {:induction false} AllPropEntriesFails(content: string, items: seq<Json>, n: nat)
    requires n <= |items| && AllPropEntries(content, items[..n]).None?
    ensures AllPropEntries(content, items).None?
    decreases |items| - n
  {
    if n < |items| {
      assert items[..n + 1][..n] == items[..n];
      AllPropEntriesFails(content, items, n + 1);
    } else {
      assert items[..n] == items;
    }
  }

  /**
   * The items `get_custom_properties` hands back and the loop iterates: the
   * `properties` value of the document (iterating an object gives its keys,
   * a string its characters), nothing when the file is missing, does not
   * parse or is not an object. None: the value cannot be iterated.
   */
  function PropertyItems(config: Option<Json>): Option<seq<Json>>
  {
    if config.None? || !config.value.JObj? then Some([])
    else
      match Get(config.value.members, "properties")
      case None => Some([])
      case Some(JArr(items)) => Some(items)
      case Some(JObj(members)) => Some(seq(|members|, i requires 0 <= i < |members| => JStr(members[i].0)))
      case Some(JStr(s)) => Some(seq(|s|, i requires 0 <= i < |s| => JStr([s[i]])))
      case Some(_) => None
  }

  /** What `extract_all_custom_properties` returns for a file, given the parsed configuration. */
  function AllCustomPropertyEntries(content: string, config: Option<Json>): Option<seq<Entry>>
  {
    match PropertyItems(config)
    case None => None
    case Some(items) => AllPropEntries(content, items)
  }

  /** `extract_all_custom_properties`: run each enabled, named property in configuration order and extend. */
  method ExtractAllCustomProperties(content: string, config: Option<Json>) returns (r: Option<seq<Entry>>)
    ensures r == AllCustomPropertyEntries(content, config)
  {
    var items := PropertyItems(config);
    if items.None? {
      return None;
    }
    r := ExtractProps(content, items.value);
  }

  /** The loop over the configuration entries: extend with what each finds; None once one raises. */
  method ExtractProps(content: string, props: seq<Json>) returns (r: Option<seq<Entry>>)
    ensures r == AllPropEntries(content, props)
  {
    var entries := [];
    for k := 0 to |props|
      invariant AllPropEntries(content, props[..k]) == Some(entries)
    {
      assert props[..k + 1][..k] == props[..k];
      var found := ExtractProp(content, props[k]);
      if found.None? {
        AllPropEntriesFails(content, props, k + 1);
        return None;
      }
      entries := entries + found.value;
    }
    assert props[..|props|] == props;
    return Some(entries);
  }

  /** The loop body for one configuration entry: read its fields with their defaults and extract. */
  method ExtractProp(content: string, item: Json) returns (r: Option<seq<Entry>>)
    ensures r == PropEntries(content, item)
  {
    if !item.JObj? {
      return None;
    }
    var m := item.members;
    if !Truthy(GetOr(m, "enabled", JBool(true))) {
      return Some([]);
    }
    var name := GetOr(m, "name", JStr(""));
    var t := TypeCode(GetOr(m, "type", JNum(1)));
    if !Truthy(name) {
      return Some([]);
    }
    if !name.JStr? {
      return if 1 <= t <= 3 then None else Some([]);
    }
    var found := ExtractCustomProperty(content, name.s, t);
    return Some(found);
  }

  /** A configuration entry that cannot raise: an object whose name, if truthy, is a string. */
  predicate WellFormed(item: Json) {
    item.JObj? && (var name := GetOr(item.members, "name", JStr("")); !Truthy(name) || name.JStr?)
  }

  /** The entry names a property to extract: enabled (by default) and with a non-empty name. */
  predicate Selected(item: Json)
    requires WellFormed(item)
  {
    Truthy(GetOr(item.members, "enabled", JBool(true))) && Truthy(GetOr(item.members, "name", JStr("")))
  }

  /** The (name, type) of each selected entry, in configuration order; the type defaults to 1. */
  function SelectedProps(items: seq<Json>): (props: seq<(string, int)>)
    requires forall k :: 0 <= k < |items| ==> WellFormed(items[k])
    ensures |props| <= |items|
  {
    if items == [] then []
    else
      var init := SelectedProps(items[..|items| - 1]);
      var it := items[|items| - 1];
      if Selected(it) then
        init + [(GetOr(it.members, "name", JStr("")).s, TypeCode(GetOr(it.members, "type", JNum(1))))]
      else init
  }

  /** The extractions of a list of (name, type) pairs, concatenated in order. */
  function PropsEntries(content: string, props: seq<(string, int)>): seq<Entry>
  {
    if props == [] then []
    else PropsEntries(content, props[..|props| - 1]) + PropertyEntries(content, props[|props| - 1].0, props[|props| - 1].1)
  }

  /**
   * With well-formed entries, the run concatenates, in configuration
   * order, the extractions of exactly the enabled entries with a non-empty
   * name, each with its type (1 by default).
   */
  lemma {:induction false} AllPropEntriesSelected(content: string, items: seq<Json>)
    requires forall k :: 0 <= k < |items| ==> WellFormed(items[k])
    ensures AllPropEntries(content, items) == Some(PropsEntries(content, SelectedProps(items)))
  {
    if items != [] {
      var init := items[..|items| - 1];
      assert forall k :: 0 <= k < |init| ==> WellFormed(init[k]) by {
        forall k | 0 <= k < |init| ensures WellFormed(init[k]) {
          assert init[k] == items[k];
        }
      }
      AllPropEntriesSelected(content, init);
      var it := items[|items| - 1];
      assert WellFormed(it);
      PropEntriesWellFormed(content, it);
      var ps := SelectedProps(init);
      if Selected(it) {
        var p := (GetOr(it.members, "name", JStr("")).s, TypeCode(GetOr(it.members, "type", JNum(1))));
        assert (ps + [p])[..|ps + [p]| - 1] == ps;
      } else {
        assert PropsEntries(content, ps) + [] == PropsEntries(content, ps);
      }
    }
  }

  /** A well-formed entry yields its property's values when selected, nothing otherwise. */
  lemma PropEntriesWellFormed(content: string, it: Json)
    requires WellFormed(it)
    ensures !Selected(it) ==> PropEntries(content, it) == Some([])
    ensures Selected(it) ==>
      PropEntries(content, it) == Some(PropertyEntries(content, GetOr(it.members, "name", JStr("")).s, TypeCode(GetOr(it.members, "type", JNum(1)))))
  {
  }

  /** Every entry a run emits is a non-blank verbatim text of the content with a valid line. */
  lemma {:induction false} AllPropEntriesFromContent(content: string, items: seq<Json>)
    requires AllPropEntries(content, items).Some?
    ensures AllFromContent(content, AllPropEntries(content, items).value)
  {
    if items != [] {
      var init := items[..|items| - 1];
      AllPropEntriesFromContent(content, init);
      var it := items[|items| - 1];
      var name := GetOr(it.members, "name", JStr(""));
      if Truthy(GetOr(it.members, "enabled", JBool(true))) && Truthy(name) && name.JStr? {
        var t := TypeCode(GetOr(it.members, "type", JNum(1)));
        match PropertyPattern(name.s, t)
        case None =>
        case Some(p) =>
          KeptEntriesFromContent(content, FindAll(p, content), CommentRanges(content, CommentPatterns));
      }
      AllFromContentAppend(content, AllPropEntries(content, init).value, PropEntries(content, it).value);
    }
  }

  // ---------------------------------------------------------------------
  // The fixed-name rules

  /**
   * The property name and assignment type of each backward-compatible
   * rule, in the order the file defines them: `extract_description`
   * through `extract_unavailable_notification`.
   */
  const FixedProperties: seq<(string, int)> := [
    ("description", 1), ("purchase_notification", 1), ("unlock_notification", 1),
    ("title_text", 1), ("description_text", 1), ("name", 1), ("sponsor_description", 1),
    ("tooltip", 3), ("text", 3), ("textbutton", 3),
    ("available_tooltip", 2), ("unavailable_tooltip", 2), ("unavailable_notification", 2)
  ]

  /** The `k`-th fixed-name rule: `extract_custom_property` with its name and type. */
  function FixedRule(content: string, k: nat): seq<Entry>
    requires k < |FixedProperties|
  {
    PropertyEntries(content, FixedProperties[k].0, FixedProperties[k].1)
  }

  /** Every entry a fixed-name rule emits is a non-blank verbatim text of the content with a valid line. */
  lemma FixedRuleFromContent(content: string, k: nat)
    requires k < |FixedProperties|
    ensures AllFromContent(content, FixedRule(content, k))
  {
    var name := FixedProperties[k].0;
    var t := FixedProperties[k].1;
    KeptEntriesFromContent(content, FindAll(PropertyPattern(name, t).value, content), CommentRanges(content, CommentPatterns));
  }
}
