/**
 * core/factories/validator_factory.py: the named text validators and the
 * chain that runs them. The registry is a Python dict, so it has both a
 * name -> validator map and an iteration order (insertion order; a
 * re-registered name keeps its place).
 */
module ValidatorFactory {
  import opened Wrappers
  import opened Text
  import opened Seqs

  /** A validator: a predicate on the candidate text. */
  type Validator = string -> bool

  // ---------------------------------------------------------------------
  // The built-in validators

  /** `_validate_non_empty`: `bool(text and text.strip())`. */
  predicate NonEmpty(text: string) {
    text != [] && Strip(text) != []
  }

  /** `non_empty` rejects exactly the empty and the whitespace-only texts. */
  lemma NonEmptyIffNotBlank(text: string)
    ensures NonEmpty(text) <==> !IsBlank(text)
  {
    StripEmptyIffBlank(text);
  }

  /** `_validate_has_alphanumeric`: `any(c.isalnum() for c in text)`, scanned left to right. */
  function HasAlphanumeric(text: string): (r: bool)
    ensures r <==> exists i :: 0 <= i < |text| && IsAlnum(text[i])
  {
    if text == [] then false
    else if IsAlnum(text[0]) then true
    else
      var r := HasAlphanumeric(text[1..]);
      assert forall i :: 1 <= i < |text| ==> text[i] == text[1..][i - 1];
      assert r ==> exists i :: 1 <= i < |text| && IsAlnum(text[i]);
      r
  }

  /** The characters `_validate_no_invalid_chars` refuses: NUL and U+FFFD, the replacement character. */
  predicate IsInvalidChar(c: char) {
    c == '\0' || c == '\U{FFFD}'
  }

  /** `_validate_no_invalid_chars`: `not any(c in text for c in ['\0', '\ufffd'])`. */
  function NoInvalidChars(text: string): (r: bool)
    ensures r <==> forall i :: 0 <= i < |text| ==> !IsInvalidChar(text[i])
  {
    if text == [] then true
    else if IsInvalidChar(text[0]) then false
    else
      var r := NoInvalidChars(text[1..]);
      assert forall i :: 1 <= i < |text| ==> text[i] == text[1..][i - 1];
      r
  }

  /** A text with an alphanumeric character is never blank: `has_alphanumeric` implies `non_empty`. */
  lemma AlphanumericImpliesNonEmpty(text: string)
    requires HasAlphanumeric(text)
    ensures NonEmpty(text)
  {
    var i :| 0 <= i < |text| && IsAlnum(text[i]);
    NonEmptyIffNotBlank(text);
  }

  const NonEmptyName: string := "non_empty"
  const HasAlphanumericName: string := "has_alphanumeric"
  const NoInvalidCharsName: string := "no_invalid_chars"

  /** The names `__init__` registers, in registration order. */
  const BuiltinNames: seq<string> := [NonEmptyName, HasAlphanumericName, NoInvalidCharsName]

  /** The validators `__init__` registers. */
  function Builtins(): (m: map<string, Validator>)
    ensures m.Keys == {NonEmptyName, HasAlphanumericName, NoInvalidCharsName}
  {
    map[NonEmptyName := NonEmpty, HasAlphanumericName := HasAlphanumeric, NoInvalidCharsName := NoInvalidChars]
  }

  // ---------------------------------------------------------------------
  // The chain

  /**
   * The position of the first name in `names` that is registered and whose
   * validator rejects `text`: where `validate_text` returns False. None:
   * every name is unknown or accepts, and the chain returns True.
   */
  function FirstFailure(validators: map<string, Validator>, text: string, names: seq<string>): (r: Option<nat>)
    ensures r.Some? ==> r.value < |names| && names[r.value] in validators && !validators[names[r.value]](text)
    ensures r.Some? ==> forall i :: 0 <= i < r.value ==> names[i] !in validators || validators[names[i]](text)
    ensures r.None? <==> forall i :: 0 <= i < |names| ==> names[i] !in validators || validators[names[i]](text)
  {
    if names == [] then None
    else if names[0] in validators && !validators[names[0]](text) then Some(0)
    else
      var rest := FirstFailure(validators, text, names[1..]);
      assert forall i :: 1 <= i < |names| ==> names[i] == names[1..][i - 1];
      match rest
      case None => None
      case Some(k) => Some(k + 1)
  }

  /** `validate_text` accepts `text` with the given validator names. */
  predicate Passes(validators: map<string, Validator>, text: string, names: seq<string>) {
    FirstFailure(validators, text, names).None?
  }

  /** How many validators the chain inspects: up to and including the first failure, or all of them. */
  function Inspected(validators: map<string, Validator>, text: string, names: seq<string>): (n: nat)
    ensures n <= |names|
  {
    match FirstFailure(validators, text, names)
    case Some(k) => k + 1
    case None => |names|
  }

  /** Unknown names do not matter: removing one from the list leaves the verdict unchanged. */
  lemma UnknownNameSkipped(validators: map<string, Validator>, text: string, a: seq<string>, name: string, b: seq<string>)
    requires name !in validators
    ensures Passes(validators, text, a + [name] + b) <==> Passes(validators, text, a + b)
  {
    var long := a + [name] + b;
    var short := a + b;
    if Passes(validators, text, short) {
      forall i | 0 <= i < |long| ensures long[i] !in validators || validators[long[i]](text) {
        if i < |a| { assert long[i] == short[i]; }
        else if i > |a| { assert long[i] == short[i - 1]; }
      }
    }
    if Passes(validators, text, long) {
      forall i | 0 <= i < |short| ensures short[i] !in validators || validators[short[i]](text) {
        if i < |a| { assert short[i] == long[i]; } else { assert short[i] == long[i + 1]; }
      }
    }
  }

  /**
   * With the built-in validators and every name, a text passes exactly
   * when it has an alphanumeric character and neither NUL nor U+FFFD (a
   * text with an alphanumeric character is never blank).
   */
  lemma DefaultChainIff(text: string)
    ensures Passes(Builtins(), text, BuiltinNames) <==> HasAlphanumeric(text) && NoInvalidChars(text)
  {
    var vs := Builtins();
    assert BuiltinNames[0] == NonEmptyName && BuiltinNames[1] == HasAlphanumericName && BuiltinNames[2] == NoInvalidCharsName;
    if HasAlphanumeric(text) {
      AlphanumericImpliesNonEmpty(text);
    }
    if Passes(vs, text, BuiltinNames) {
      assert vs[BuiltinNames[1]](text) && vs[BuiltinNames[2]](text);
    }
  }

  // ---------------------------------------------------------------------
  // The registry

  /**
   * The attributes an instance of `ValidatorFactory` has besides its
   * `validators` dict: the Python names of the five methods of
   * `ValidatorRegistry` below (GetValidator, GetAllValidators,
   * RegisterValidator, UnregisterValidator, ValidateText). A method call on
   * the registry under any other name raises AttributeError.
   */
  const RegistryMethodNames: set<string> := {
    "get_validator", "get_all_validators", "register_validator", "unregister_validator", "validate_text"}

  class ValidatorRegistry {
    /** `self.validators`: name -> validator. */
    var validators: map<string, Validator>
    /** The dict's iteration order: each registered name once, oldest first. */
    var order: seq<string>

    /** The key order lists exactly the registered names, each once. */
    ghost predicate Valid()
      reads this
    {
      Distinct(order) && forall name :: name in validators <==> name in order
    }

    /** `__init__`: the three built-in validators, in their order. */
    constructor()
      ensures Valid()
      ensures validators == Builtins() && order == BuiltinNames
    {
      validators := Builtins();
      order := BuiltinNames;
    }

    /** `get_validator`: the validator registered under `name`, or None. */
    method GetValidator(name: string) returns (v: Option<Validator>)
      ensures v.Some? <==> name in validators
      ensures v.Some? ==> v.value == validators[name]
    {
      if name in validators {
        return Some(validators[name]);
      }
      return None;
    }

    /** `get_all_validators`: a copy of the map (a map value here: later registrations do not reach it). */
    method GetAllValidators() returns (all: map<string, Validator>)
      ensures all == validators
    {
      all := validators;
    }

    /** `register_validator`: bind `name`, replacing an existing validator in place; always True. */
    method RegisterValidator(name: string, validator: Validator) returns (ok: bool)
      requires Valid()
      modifies this
      ensures Valid()
      ensures ok
      ensures validators == old(validators)[name := validator]
      ensures order == if name in old(validators) then old(order) else old(order) + [name]
    {
      if name !in validators {
        order := order + [name];
      }
      validators := validators[name := validator];
      return true;
    }

    /** `unregister_validator`: delete `name`; True exactly when it was registered. */
    method UnregisterValidator(name: string) returns (ok: bool)
      requires Valid()
      modifies this
      ensures Valid()
      ensures ok <==> name in old(validators)
      ensures name !in validators
      ensures validators == old(validators) - {name}
      ensures order == Without(old(order), name)
    {
      if name in validators {
        validators := validators - {name};
        order := Without(order, name);
        return true;
      }
      return false;
    }

    /** The names the chain runs: the given list, or every registered name in dict order. */
    function ChainNames(names: Option<seq<string>>): seq<string>
      reads this
    {
      match names
      case None => order
      case Some(ns) => ns
    }

    /**
     * `validate_text`: run the named validators (all registered ones when
     * `names` is None) in order, returning False at the first registered
     * one that rejects the text; unknown names are skipped. `inspected`
     * counts the names looked at, so the validators after a failure are
     * never run.
     */
    method ValidateText(text: string, names: Option<seq<string>>) returns (ok: bool, ghost inspected: nat)
      ensures ok <==> Passes(validators, text, ChainNames(names))
      ensures inspected == Inspected(validators, text, ChainNames(names))
    {
      var ns := if names.None? then order else names.value;
      for k := 0 to |ns|
        invariant forall i :: 0 <= i < k ==> ns[i] !in validators || validators[ns[i]](text)
      {
        var v := GetValidator(ns[k]);
        if v.Some? && !v.value(text) {
          FirstFailureAt(validators, text, ns, k);
          return false, k + 1;
        }
      }
      return true, |ns|;
    }
  }

  /** A rejection at `k` after only passes is the first failure. */
  lemma FirstFailureAt(validators: map<string, Validator>, text: string, names: seq<string>, k: nat)
    requires k < |names| && names[k] in validators && !validators[names[k]](text)
    requires forall i :: 0 <= i < k ==> names[i] !in validators || validators[names[i]](text)
    ensures FirstFailure(validators, text, names) == Some(k)
  {
    var r := FirstFailure(validators, text, names);
    assert r.Some?;
    if r.value < k {
    } else if r.value > k {
    }
  }

  /** A freshly registered validator is consulted: registering a rejecting validator under `name` makes a chain naming it fail. */
  lemma RegisteredValidatorApplies(validators: map<string, Validator>, name: string, v: Validator, text: string, names: seq<string>)
    requires name in names && !v(text)
    ensures !Passes(validators[name := v], text, names)
  {
    var i :| 0 <= i < |names| && names[i] == name;
    assert names[i] in validators[name := v];
  }
}
