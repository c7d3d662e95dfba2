/**
 * String helpers shared by the extractors, the validators and the writer:
 * the character classes Python's `str.strip`, `str.isalnum` and the regex
 * classes `\s`, `\w` use (ASCII part), substring search with `str.find`'s
 * semantics, the quote escaping the writer and the key formatter apply,
 * and decimal rendering of locators.
 */
module Text {
  import opened Wrappers
  import opened Seqs

  /** Python's whitespace (`str.isspace`, regex `\s`) restricted to ASCII. */
  predicate IsSpace(c: char) {
    c == ' ' || c == '\t' || c == '\n' || c == '\r' || c == '\U{000B}' || c == '\U{000C}'
    || ('\U{001C}' <= c <= '\U{001F}')
  }

  predicate IsDigit(c: char) { '0' <= c <= '9' }

  /** `str.isalnum` restricted to ASCII letters and digits. */
  predicate IsAlnum(c: char) { 'a' <= c <= 'z' || 'A' <= c <= 'Z' || IsDigit(c) }

  /** Regex `\w` restricted to ASCII: letters, digits and underscore. */
  predicate IsWordChar(c: char) { IsAlnum(c) || c == '_' }

  /** Every character is whitespace (true of the empty string). */
  predicate IsBlank(s: string) {
    forall i :: 0 <= i < |s| ==> IsSpace(s[i])
  }

  /** Python's `str.lstrip()` with no argument. */
  function LStrip(s: string): string {
    if s == [] || !IsSpace(s[0]) then s else LStrip(s[1..])
  }

  /** `lstrip` removes a blank prefix and nothing more: what is left starts with a non-space, if anything. */
  lemma {:induction false} LStripRemovesBlankPrefix(s: string)
    ensures var r := LStrip(s);
      |r| <= |s| && r == s[|s| - |r|..] && (r == [] || !IsSpace(r[0])) && IsBlank(s[..|s| - |r|])
    decreases |s|
  {
    if s != [] && IsSpace(s[0]) {
      LStripRemovesBlankPrefix(s[1..]);
      var r := LStrip(s[1..]);
      assert s[1..][..|s| - 1 - |r|] == s[1..|s| - |r|];
    }
  }

  /** Python's `str.rstrip()` with no argument. */
  function RStrip(s: string): string {
    if s == [] || !IsSpace(s[|s| - 1]) then s else RStrip(s[..|s| - 1])
  }

  /** `rstrip` removes a blank suffix and nothing more: what is left ends with a non-space, if anything. */
  lemma {:induction false} RStripRemovesBlankSuffix(s: string)
    ensures var r := RStrip(s);
      |r| <= |s| && r == s[..|r|] && (r == [] || !IsSpace(r[|r| - 1])) && IsBlank(s[|r|..])
    decreases |s|
  {
    if s != [] && IsSpace(s[|s| - 1]) {
      RStripRemovesBlankSuffix(s[..|s| - 1]);
      var r := RStrip(s[..|s| - 1]);
      assert s[..|s| - 1][|r|..] + [s[|s| - 1]] == s[|r|..];
    }
  }

  /**
   * Python's `str.strip()`: the slice left after removing leading and
   * trailing whitespace.
   */
  function Strip(s: string): string {
    RStrip(LStrip(s))
  }

  /** Strip removes exactly a blank prefix and a blank suffix: the result is the slice between them. */
  lemma StripIsTrimmedSlice(s: string)
    ensures exists a, b :: 0 <= a <= b <= |s| && Strip(s) == s[a..b] && IsBlank(s[..a]) && IsBlank(s[b..])
    ensures Strip(s) == [] || (!IsSpace(Strip(s)[0]) && !IsSpace(Strip(s)[|Strip(s)| - 1]))
  {
    var l := LStrip(s);
    var r := RStrip(l);
    LStripRemovesBlankPrefix(s);
    RStripRemovesBlankSuffix(l);
    var a := |s| - |l|;
    var b := a + |r|;
    assert l == s[a..];
    assert r == s[a..b];
    assert s[b..] == l[|r|..];
    if r != [] {
      assert r[0] == l[0];
    }
  }

  /** Stripping leaves nothing exactly when every character is whitespace. */
  lemma {:induction false} StripEmptyIffBlank(s: string)
    ensures Strip(s) == [] <==> IsBlank(s)
  {
    var r := Strip(s);
    StripIsTrimmedSlice(s);
    var a, b :| 0 <= a <= b <= |s| && r == s[a..b] && IsBlank(s[..a]) && IsBlank(s[b..]);
    if r == [] {
      forall i | 0 <= i < |s| ensures IsSpace(s[i]) {
        if i < a { assert s[..a][i] == s[i]; } else { assert s[b..][i - b] == s[i]; }
      }
    } else {
      assert s[a..b][0] == s[a];
    }
  }

  /** Stripping is idempotent: a stripped text strips to itself. */
  lemma StripIdempotent(s: string)
    ensures Strip(Strip(s)) == Strip(s)
  {
    var r := Strip(s);
    StripIsTrimmedSlice(s);
    LStripRemovesBlankPrefix(r);
    var l := LStrip(r);
    assert l == r;
    RStripRemovesBlankSuffix(l);
    assert RStrip(l) == r;
  }

  /** Number of occurrences of `c` in `s` (Python's `str.count` for one character). */
  function CountChar(s: string, c: char): (n: nat)
    ensures n <= |s|
  {
    if s == [] then 0
    else CountChar(s[..|s| - 1], c) + (if s[|s| - 1] == c then 1 else 0)
  }

  /**
   * The occurrences of `c` among the first `p` characters of `s`, counted
   * in place (CountBeforeIsCount: it is CountChar of the prefix).
   */
  function CountBefore(s: string, c: char, p: nat): (n: nat)
    requires p <= |s|
    ensures n <= p
  {
    if p == 0 then 0 else CountBefore(s, c, p - 1) + (if s[p - 1] == c then 1 else 0)
  }

  /** Counting in place is counting in the prefix. */
  lemma {:induction false} CountBeforeIsCount(s: string, c: char, p: nat)
    requires p <= |s|
    ensures CountBefore(s, c, p) == CountChar(s[..p], c)
  {
    if p > 0 {
      CountBeforeIsCount(s, c, p - 1);
      assert s[..p][..p - 1] == s[..p - 1];
    }
  }

  /** Counting over a longer prefix never finds fewer occurrences. */
  lemma {:induction false} CountBeforeMonotone(s: string, c: char, i: nat, j: nat)
    requires i <= j <= |s|
    ensures CountBefore(s, c, i) <= CountBefore(s, c, j)
    decreases j - i
  {
    if i < j {
      CountBeforeMonotone(s, c, i, j - 1);
    }
  }

  /** Counting over a longer prefix never finds fewer occurrences. */
  lemma {:induction false} CountCharPrefixMonotone(s: string, c: char, i: nat, j: nat)
    requires i <= j <= |s|
    ensures CountChar(s[..i], c) <= CountChar(s[..j], c)
    decreases j - i
  {
    if i < j {
      CountCharPrefixMonotone(s, c, i, j - 1);
      assert s[..j][..j - 1] == s[..j - 1];
    }
  }

  /** A string without `c` counts none of it. */
  lemma {:induction false} CountCharAbsent(s: string, c: char)
    requires forall j :: 0 <= j < |s| ==> s[j] != c
    ensures CountChar(s, c) == 0
    decreases |s|
  {
    if s != [] {
      CountCharAbsent(s[..|s| - 1], c);
    }
  }

  /** Counting distributes over concatenation. */
  lemma {:induction false} CountCharAppend(a: string, b: string, c: char)
    ensures CountChar(a + b, c) == CountChar(a, c) + CountChar(b, c)
    decreases |b|
  {
    if b == [] {
      assert a + b == a;
    } else {
      CountCharAppend(a, b[..|b| - 1], c);
      assert (a + b)[..|a + b| - 1] == a + b[..|b| - 1];
    }
  }

  /**
   * Python's `s[i:j]` for non-negative bounds: clamped to the string,
   * empty when the bounds cross. Built a character at a time, so that a
   * use of it does not bring the whole slice algebra of `s` with it;
   * SliceIsSlice relates it to Dafny's slice.
   */
  function Slice(s: string, i: nat, j: nat): (r: string)
    ensures |r| <= |s| && |r| <= j
    decreases j
  {
    if j > |s| then Slice(s, i, |s|)
    else if j <= i then []
    else Slice(s, i, j - 1) + [s[j - 1]]
  }

  /** Within bounds, Slice is Dafny's slice. */
  lemma {:induction false} SliceIsSlice(s: string, i: nat, j: nat)
    requires i <= j <= |s|
    ensures Slice(s, i, j) == s[i..j]
    decreases j
  {
    if i < j {
      SliceIsSlice(s, i, j - 1);
      assert s[i..j] == s[i..j - 1] + [s[j - 1]];
    }
  }

  /** Python's `s.startswith(p)`. */
  predicate StartsWith(s: string, p: string) {
    StartsAt(s, 0, p)
  }

  /** Python's `s.endswith(p)`. */
  predicate EndsWith(s: string, p: string) {
    |p| <= |s| && StartsAt(s, |s| - |p|, p)
  }

  /** `p` occurs in `s` at index `i`. */
  predicate StartsAt(s: string, i: nat, p: string) {
    i + |p| <= |s| && Agrees(s, i, p, 0)
  }

  /** `p[k..]` occurs in `s` at index `i + k`, compared character by character. */
  predicate Agrees(s: string, i: nat, p: string, k: nat)
    decreases |p| - k
  {
    k >= |p| || (i + k < |s| && s[i + k] == p[k] && Agrees(s, i, p, k + 1))
  }

  /** The character-by-character comparison is the slice comparison. */
  lemma {:induction false} AgreesIff(s: string, i: nat, p: string, k: nat)
    requires i + |p| <= |s| && k <= |p|
    ensures Agrees(s, i, p, k) <==> s[i + k..i + |p|] == p[k..]
    decreases |p| - k
  {
    if k < |p| {
      AgreesIff(s, i, p, k + 1);
      assert s[i + k..i + |p|] == [s[i + k]] + s[i + k + 1..i + |p|];
      assert p[k..] == [p[k]] + p[k + 1..];
    }
  }

  /** `p` occurs at `i` exactly when the slice of `s` at `i` is `p`. */
  lemma StartsAtIff(s: string, i: nat, p: string)
    ensures StartsAt(s, i, p) <==> i + |p| <= |s| && s[i..i + |p|] == p
  {
    if i + |p| <= |s| {
      AgreesIff(s, i, p, 0);
      assert p[0..] == p;
    }
  }

  /**
   * Python's `s.find(p, start)`: the first index at or after `start` where
   * `p` occurs, or None (Python's -1).
   */
  function Find(s: string, p: string, start: nat): (r: Option<nat>)
    ensures r.Some? ==> start <= r.value && r.value + |p| <= |s|
    decreases |s| - start
  {
    if start + |p| > |s| then None
    else if StartsAt(s, start, p) then Some(start)
    else Find(s, p, start + 1)
  }

  /**
   * `find` reports the first occurrence at or after `start`: `p` occurs at
   * the index found and nowhere between `start` and it; None means `p`
   * occurs nowhere from `start` on.
   */
  lemma {:induction false} FindSpec(s: string, p: string, start: nat)
    ensures Find(s, p, start).Some? ==> StartsAt(s, Find(s, p, start).value, p)
    ensures Find(s, p, start).Some? ==> forall j :: start <= j < Find(s, p, start).value ==> !StartsAt(s, j, p)
    ensures Find(s, p, start).None? ==> forall j :: start <= j ==> !StartsAt(s, j, p)
    decreases |s| - start
  {
    if start + |p| <= |s| && !StartsAt(s, start, p) {
      FindSpec(s, p, start + 1);
    }
  }

  /** Agreement inside a slice is agreement in the whole string, shifted by the slice start. */
  lemma {:induction false} AgreesSlice(s: string, i: nat, j: nat, a: nat, p: string, k: nat)
    requires i <= j <= |s| && Agrees(s[i..j], a, p, k)
    ensures Agrees(s, i + a, p, k)
    decreases |p| - k
  {
    if k < |p| {
      assert s[i..j][a + k] == s[i + a + k];
      AgreesSlice(s, i, j, a, p, k + 1);
    }
  }

  /** An occurrence inside a slice is an occurrence in the whole string, shifted by the slice start. */
  lemma StartsAtSlice(s: string, i: nat, j: nat, a: nat, p: string)
    requires i <= j <= |s| && StartsAt(s[i..j], a, p)
    ensures StartsAt(s, i + a, p)
  {
    AgreesSlice(s, i, j, a, p, 0);
  }

  /** Python's `p in s`. */
  predicate Contains(s: string, p: string) {
    Find(s, p, 0).Some?
  }

  /** `p in s` holds exactly when `p` occurs at some index of `s`. */
  lemma ContainsIff(s: string, p: string)
    ensures Contains(s, p) <==> exists i :: StartsAt(s, i, p)
  {
    FindSpec(s, p, 0);
  }

  /** An occurrence at a known index is an occurrence. */
  lemma ContainsAt(s: string, i: nat, p: string)
    requires StartsAt(s, i, p)
    ensures Contains(s, p)
  {
    ContainsIff(s, p);
  }

  /** Text added after `a` keeps every occurrence in `a`. */
  lemma ContainsExtended(a: string, b: string, p: string)
    requires Contains(a, p)
    ensures Contains(a + b, p)
  {
    ContainsIff(a, p);
    ContainsIff(a + b, p);
    var i: nat :| StartsAt(a, i, p);
    StartsAtIff(a, i, p);
    assert (a + b)[i..i + |p|] == a[i..i + |p|];
    StartsAtIff(a + b, i, p);
  }

  /** `p` occurs where it is placed. */
  lemma ContainsPlaced(a: string, p: string, rest: string)
    ensures Contains(a + (p + rest), p)
  {
    var s := a + (p + rest);
    assert s[|a|..|a| + |p|] == p;
    StartsAtIff(s, |a|, p);
    ContainsIff(s, p);
  }

  /** Python's `s.replace('"', '\\"')`: every double quote gets a backslash in front. */
  function EscapeQuotes(s: string): (r: string)
    ensures |r| == |s| + CountChar(s, '"')
  {
    if s == [] then []
    else EscapeQuotes(s[..|s| - 1]) + (if s[|s| - 1] == '"' then "\\\"" else [s[|s| - 1]])
  }

  /** Reads `\"` as `"` and keeps every other character: the inverse of EscapeQuotes. */
  function UnescapeQuotes(s: string): string
  {
    if s == [] then []
    else if |s| >= 2 && s[0] == '\\' && s[1] == '"' then ['"'] + UnescapeQuotes(s[2..])
    else [s[0]] + UnescapeQuotes(s[1..])
  }

  /** Escaping distributes over concatenation. */
  lemma {:induction false} EscapeQuotesAppend(a: string, b: string)
    ensures EscapeQuotes(a + b) == EscapeQuotes(a) + EscapeQuotes(b)
    decreases |b|
  {
    if b == [] {
      assert a + b == a;
    } else {
      var init, last := b[..|b| - 1], b[|b| - 1];
      var tail := if last == '"' then "\\\"" else [last];
      assert (a + b)[..|a + b| - 1] == a + init;
      assert EscapeQuotes(a + b) == EscapeQuotes(a + init) + tail;
      assert EscapeQuotes(b) == EscapeQuotes(init) + tail;
      EscapeQuotesAppend(a, init);
      AppendAssoc(EscapeQuotes(a), EscapeQuotes(init), tail);
    }
  }

  /** Escaped text never starts with a double quote (one would have a backslash before it). */
  lemma EscapeQuotesHead(s: string)
    requires s != []
    ensures EscapeQuotes(s)[0] != '"'
  {
    EscapeQuotesAppend([s[0]], s[1..]);
    assert [s[0]] + s[1..] == s;
  }

  /** Escaping loses nothing: unescaping gives the original text back. */
  lemma {:induction false} EscapeQuotesRoundTrip(s: string)
    ensures UnescapeQuotes(EscapeQuotes(s)) == s
    decreases |s|
  {
    if s != [] {
      var rest := s[1..];
      EscapeQuotesAppend([s[0]], rest);
      assert [s[0]] + rest == s;
      EscapeQuotesRoundTrip(rest);
      if s[0] == '"' {
        assert EscapeQuotes([s[0]]) == "\\\"";
      } else {
        assert EscapeQuotes([s[0]]) == [s[0]];
        var e := EscapeQuotes(s);
        assert e == [s[0]] + EscapeQuotes(rest);
        if s[0] == '\\' && rest != [] {
          EscapeQuotesHead(rest);
        }
        assert e[1..] == EscapeQuotes(rest);
      }
    }
  }

  /** Escaping is injective: different texts have different escaped forms. */
  lemma EscapeQuotesInjective(s: string, t: string)
    requires EscapeQuotes(s) == EscapeQuotes(t)
    ensures s == t
  {
    EscapeQuotesRoundTrip(s);
    EscapeQuotesRoundTrip(t);
  }

  /** Decimal digits of a natural number, as Python's `str(n)` writes them. */
  function NatToString(n: nat): (r: string)
    ensures r != [] && forall i :: 0 <= i < |r| ==> IsDigit(r[i])
  {
    var d := ['0' + (n % 10) as char];
    if n < 10 then d else NatToString(n / 10) + d
  }

  /** Python's `str(n)` for an integer: an optional minus sign and the digits. */
  function IntToString(n: int): (r: string)
    ensures r != [] && (n < 0 <==> r[0] == '-')
  {
    if n < 0 then "-" + NatToString(-n) else NatToString(n)
  }
}
