/**
 * The functions of Go's `strings` and `unicode` packages that the procfs
 * helper relies on, over strings viewed as sequences of runes.
 */
module GoStrings {
  import opened Wrappers

  /** `unicode.IsSpace`: the Latin-1 spaces and the Unicode White_Space property. */
  predicate IsSpace(c: char) {
    c == '\t' || c == '\n' || c == '\U{B}' || c == '\U{C}' || c == '\r' || c == ' '
    || c == '\U{85}' || c == '\U{A0}' || c == '\U{1680}'
    || ('\U{2000}' <= c <= '\U{200A}')
    || c == '\U{2028}' || c == '\U{2029}' || c == '\U{202F}' || c == '\U{205F}'
    || c == '\U{3000}'
  }

  predicate NoSpace(s: string) {
    forall i :: 0 <= i < |s| ==> !IsSpace(s[i])
  }

  /** The position of the first occurrence of `c` in `s`, as `strings.IndexByte` finds it. */
  function IndexOf(s: string, c: char): (r: Option<nat>)
    ensures r.None? ==> c !in s
    ensures r.Some? ==> r.value < |s| && s[r.value] == c && c !in s[..r.value]
  {
    if s == [] then None
    else if s[0] == c then Some(0)
    else match IndexOf(s[1..], c)
      case None => None
      case Some(i) =>
        assert s[1..][..i] == s[1..i + 1];
        Some(i + 1)
  }

  // ---------------------------------------------------------------------------
  // strings.Split and its inverse, strings.Join, for a one-character separator
  // ---------------------------------------------------------------------------

  /** `strings.Split(s, [sep])`: the pieces between the occurrences of `sep`. */
  function Split(s: string, sep: char): (parts: seq<string>)
    ensures |parts| >= 1
    ensures forall i :: 0 <= i < |parts| ==> sep !in parts[i]
    decreases |s|
  {
    match IndexOf(s, sep)
    case None => [s]
    case Some(i) => [s[..i]] + Split(s[i + 1..], sep)
  }

  /** `strings.Join(parts, [sep])`. */
  function Join(parts: seq<string>, sep: char): string
  {
    if parts == [] then ""
    else if |parts| == 1 then parts[0]
    else parts[0] + [sep] + Join(parts[1..], sep)
  }

  /** Joining the pieces of a split gives back the original string. */
  lemma {:induction false} JoinSplit(s: string, sep: char)
    ensures Join(Split(s, sep), sep) == s
    decreases |s|
  {
    match IndexOf(s, sep)
    case None =>
    case Some(i) =>
      var rest := Split(s[i + 1..], sep);
      assert Split(s, sep) == [s[..i]] + rest;
      assert Split(s, sep)[1..] == rest;
      JoinSplit(s[i + 1..], sep);
      assert Join(Split(s, sep), sep) == s[..i] + [sep] + Join(rest, sep);
      assert s == s[..i] + [sep] + s[i + 1..];
  }

  /** Splitting a join of separator-free pieces gives back the pieces. */
  lemma {:induction false} SplitJoin(parts: seq<string>, sep: char)
    requires |parts| >= 1
    requires forall i :: 0 <= i < |parts| ==> sep !in parts[i]
    ensures Split(Join(parts, sep), sep) == parts
  {
    if |parts| == 1 {
      assert IndexOf(parts[0], sep).None?;
    } else {
      var s := Join(parts, sep);
      var p := parts[0];
      assert s == p + [sep] + Join(parts[1..], sep);
      assert s[|p|] == sep;
      assert s[..|p|] == p;
      assert IndexOf(s, sep) == Some(|p|);
      assert s[|p| + 1..] == Join(parts[1..], sep);
      SplitJoin(parts[1..], sep);
    }
  }

  /** Splitting text joined at a separator splits each side. */
  lemma {:induction false} SplitAppend(a: string, b: string, sep: char)
    ensures Split(a + [sep] + b, sep) == Split(a, sep) + Split(b, sep)
    decreases |a|
  {
    match IndexOf(a, sep)
    case None =>
      SplitAppendFirst(a, b, sep);
    case Some(i) =>
      SplitAppend(a[i + 1..], b, sep);
      SplitAppendStep(a, b, sep, i);
      SplitAt(a, sep, i);
      ConsAppend(a[..i], Split(a[i + 1..], sep), Split(b, sep));
  }

  lemma ConsAppend<T>(x: T, p: seq<T>, q: seq<T>)
    ensures [x] + (p + q) == ([x] + p) + q
  {
  }

  lemma SplitAppendFirst(a: string, b: string, sep: char)
    requires sep !in a
    ensures Split(a + [sep] + b, sep) == [a] + Split(b, sep)
    ensures Split(a, sep) == [a]
  {
    var s := a + [sep] + b;
    assert s[..|a|] == a && s[|a| + 1..] == b;
    SplitAt(s, sep, |a|);
  }

  lemma SplitAppendStep(a: string, b: string, sep: char, i: nat)
    requires i < |a| && a[i] == sep && sep !in a[..i]
    ensures Split(a + [sep] + b, sep) == [a[..i]] + Split(a[i + 1..] + [sep] + b, sep)
  {
    var s := a + [sep] + b;
    assert s[..i] == a[..i];
    assert s[i + 1..] == a[i + 1..] + [sep] + b;
    SplitAt(s, sep, i);
  }

  /** A split cuts at the first separator. */
  lemma SplitAt(s: string, sep: char, i: nat)
    requires i < |s| && s[i] == sep && sep !in s[..i]
    ensures Split(s, sep) == [s[..i]] + Split(s[i + 1..], sep)
  {
    IndexOfAfter(s, sep, i);
  }

  /** The first `c` is at `i` when `s[i]` is `c` and none comes before. */
  lemma {:induction false} IndexOfAfter(s: string, c: char, i: nat)
    requires i < |s| && s[i] == c && c !in s[..i]
    ensures IndexOf(s, c) == Some(i)
    decreases i
  {
    if i > 0 {
      assert s[0] == s[..i][0];
      assert s[1..][..i - 1] == s[..i][1..];
      IndexOfAfter(s[1..], c, i - 1);
    }
  }


  // ---------------------------------------------------------------------------
  // strings.Fields
  // ---------------------------------------------------------------------------

  /** The length of the run of non-space runes at the start of `s`. */
  function TokenEnd(s: string): (n: nat)
    ensures n <= |s|
    ensures NoSpace(s[..n])
    ensures n < |s| ==> IsSpace(s[n])
  {
    if s == [] || IsSpace(s[0]) then 0
    else
      var n := 1 + TokenEnd(s[1..]);
      assert s[..n] == [s[0]] + s[1..][..n - 1];
      n
  }

  /**
   * `strings.Fields(s)`: the maximal runs of non-space runes, in order.
   * Every field is non-empty and holds no space.
   */
  function Fields(s: string): (fields: seq<string>)
    ensures forall i :: 0 <= i < |fields| ==> fields[i] != [] && NoSpace(fields[i])
    decreases |s|
  {
    if s == [] then []
    else if IsSpace(s[0]) then Fields(s[1..])
    else
      var n := TokenEnd(s);
      [s[..n]] + Fields(s[n..])
  }

  /** `s` with every space rune deleted. */
  function RemoveSpaces(s: string): string
  {
    if s == [] then []
    else if IsSpace(s[0]) then RemoveSpaces(s[1..])
    else [s[0]] + RemoveSpaces(s[1..])
  }

  /** The concatenation of a sequence of strings. */
  function Concat(parts: seq<string>): string
  {
    if parts == [] then [] else parts[0] + Concat(parts[1..])
  }

  lemma {:induction false} RemoveSpacesAppend(a: string, b: string)
    ensures RemoveSpaces(a + b) == RemoveSpaces(a) + RemoveSpaces(b)
  {
    if a != [] {
      assert (a + b)[1..] == a[1..] + b;
      RemoveSpacesAppend(a[1..], b);
    } else {
      assert a + b == b;
    }
  }

  lemma {:induction false} RemoveSpacesOfToken(t: string)
    requires NoSpace(t)
    ensures RemoveSpaces(t) == t
  {
    if t != [] {
      assert NoSpace(t[1..]);
      RemoveSpacesOfToken(t[1..]);
    }
  }

  /** Concatenating the fields gives the input with all whitespace removed. */
  lemma {:induction false} FieldsConcat(s: string)
    ensures Concat(Fields(s)) == RemoveSpaces(s)
    decreases |s|
  {
    if s == [] {
    } else if IsSpace(s[0]) {
      FieldsConcat(s[1..]);
    } else {
      var n := TokenEnd(s);
      FieldsConcat(s[n..]);
      assert s == s[..n] + s[n..];
      RemoveSpacesAppend(s[..n], s[n..]);
      RemoveSpacesOfToken(s[..n]);
      assert Fields(s)[1..] == Fields(s[n..]);
    }
  }

  /**
   * Fields of a line made by separating non-empty, space-free tokens by one
   * blank, and ending in any run of spaces (a closing newline, say), are those
   * tokens.
   */
  lemma {:induction false} FieldsOfJoin(tokens: seq<string>, tail: string)
    requires forall i :: 0 <= i < |tokens| ==> tokens[i] != [] && NoSpace(tokens[i])
    requires forall i :: 0 <= i < |tail| ==> IsSpace(tail[i])
    ensures Fields(Join(tokens, ' ') + tail) == tokens
  {
    if |tokens| == 0 {
      assert Join(tokens, ' ') + tail == tail;
      FieldsOfSpaces(tail);
    } else if |tokens| == 1 {
      assert Join(tokens, ' ') == tokens[0];
      FieldsOfToken(tokens[0], tail);
      FieldsOfSpaces(tail);
      assert [tokens[0]] + [] == tokens;
    } else {
      FieldsOfJoin(tokens[1..], tail);
      FieldsOfJoinStep(tokens, tail);
    }
  }

  /** The step of `FieldsOfJoin`: the first token, a blank, and the line of the others. */
  lemma FieldsOfJoinStep(tokens: seq<string>, tail: string)
    requires |tokens| >= 2 && tokens[0] != [] && NoSpace(tokens[0])
    requires Fields(Join(tokens[1..], ' ') + tail) == tokens[1..]
    ensures Fields(Join(tokens, ' ') + tail) == tokens
  {
    var rest := Join(tokens[1..], ' ') + tail;
    var after := [' '] + rest;
    JoinFirst(tokens, tail);
    FieldsAfterBlank(rest);
    FieldsOfToken(tokens[0], after);
    assert Fields(tokens[0] + after) == [tokens[0]] + tokens[1..];
  }

  lemma JoinFirst(tokens: seq<string>, tail: string)
    requires |tokens| >= 2
    ensures Join(tokens, ' ') + tail == tokens[0] + ([' '] + (Join(tokens[1..], ' ') + tail))
  {
  }

  lemma FieldsAfterBlank(s: string)
    ensures Fields([' '] + s) == Fields(s)
  {
    assert ([' '] + s)[1..] == s;
  }

  /** A run of spaces has no fields. */
  lemma {:induction false} FieldsOfSpaces(s: string)
    requires forall i :: 0 <= i < |s| ==> IsSpace(s[i])
    ensures Fields(s) == []
  {
    if s != [] {
      assert forall i :: 0 <= i < |s[1..]| ==> s[1..][i] == s[i + 1];
      FieldsOfSpaces(s[1..]);
    }
  }

  /** A token followed by nothing or by a space is the first field. */
  lemma FieldsOfToken(t: string, rest: string)
    requires t != [] && NoSpace(t)
    requires rest == [] || IsSpace(rest[0])
    ensures Fields(t + rest) == [t] + Fields(rest)
  {
    var s := t + rest;
    TokenEndOfToken(t, rest);
    assert s[..|t|] == t;
    assert s[|t|..] == rest;
  }

  lemma {:induction false} TokenEndOfToken(t: string, rest: string)
    requires t != [] && NoSpace(t)
    requires rest == [] || IsSpace(rest[0])
    ensures TokenEnd(t + rest) == |t|
  {
    assert (t + rest)[..|t|] == t;
  }

  // ---------------------------------------------------------------------------
  // strings.TrimFunc, strings.Trim, strings.TrimSpace
  // ---------------------------------------------------------------------------

  /** `strings.TrimLeftFunc`: drop the longest prefix whose runes all satisfy `f`. */
  function TrimLeftFunc(s: string, f: char -> bool): (r: string)
    ensures |r| <= |s| && r == s[|s| - |r|..]
    ensures forall i :: 0 <= i < |s| - |r| ==> f(s[i])
    ensures r == [] || !f(r[0])
  {
    if s != [] && f(s[0]) then
      var r := TrimLeftFunc(s[1..], f);
      assert s[1..][|s| - 1 - |r|..] == s[|s| - |r|..];
      assert forall i :: 1 <= i < |s| - |r| ==> s[1..][i - 1] == s[i];
      r
    else s
  }

  /** `strings.TrimRightFunc`: drop the longest suffix whose runes all satisfy `f`. */
  function TrimRightFunc(s: string, f: char -> bool): (r: string)
    ensures |r| <= |s| && r == s[..|r|]
    ensures forall i :: |r| <= i < |s| ==> f(s[i])
    ensures r == [] || !f(r[|r| - 1])
  {
    if s != [] && f(s[|s| - 1]) then
      var r := TrimRightFunc(s[..|s| - 1], f);
      assert s[..|s| - 1][..|r|] == s[..|r|];
      assert forall i :: |r| <= i < |s| - 1 ==> s[..|s| - 1][i] == s[i];
      r
    else s
  }

  /**
   * `strings.TrimFunc`: the contiguous part of `s` left after stripping every
   * leading and every trailing rune that satisfies `f`.
   */
  function TrimFunc(s: string, f: char -> bool): (r: string)
    ensures exists i :: TrimmedAt(s, f, i, r)
    ensures r == [] || (!f(r[0]) && !f(r[|r| - 1]))
  {
    TrimLeftRight(s, f);
    TrimRightFunc(TrimLeftFunc(s, f), f)
  }

  /** The right trim of the left trim is a slice of `s` with only runes satisfying `f` around it. */
  lemma TrimLeftRight(s: string, f: char -> bool)
    ensures TrimmedAt(s, f, |s| - |TrimLeftFunc(s, f)|, TrimRightFunc(TrimLeftFunc(s, f), f))
  {
    var left := TrimLeftFunc(s, f);
    TrimmedOfSuffix(s, f, |s| - |left|, left, TrimRightFunc(left, f));
  }

  /** A prefix `r` of the suffix `left` of `s`, with only runes satisfying `f` around it, is trimmed out of `s`. */
  lemma TrimmedOfSuffix(s: string, f: char -> bool, i: nat, left: string, r: string)
    requires i <= |s| && left == s[i..]
    requires |r| <= |left| && r == left[..|r|]
    requires forall k :: 0 <= k < i ==> f(s[k])
    requires forall k :: |r| <= k < |left| ==> f(left[k])
    ensures TrimmedAt(s, f, i, r)
  {
    forall k | i + |r| <= k < |s|
      ensures f(s[k])
    {
      assert s[k] == left[k - i];
    }
  }

  /** `r` is the slice of `s` starting at `i`, and every rune around it satisfies `f`. */
  ghost predicate TrimmedAt(s: string, f: char -> bool, i: nat, r: string) {
    && i + |r| <= |s|
    && r == s[i..i + |r|]
    && (forall k :: 0 <= k < i ==> f(s[k]))
    && (forall k :: i + |r| <= k < |s| ==> f(s[k]))
  }

  /** Left-trimming stops at the first rune that does not satisfy `f`. */
  lemma TrimLeftWrapped(prefix: string, rest: string, f: char -> bool)
    requires forall i :: 0 <= i < |prefix| ==> f(prefix[i])
    requires rest != [] && !f(rest[0])
    ensures TrimLeftFunc(prefix + rest, f) == rest
  {
    var w := prefix + rest;
    var r := TrimLeftFunc(w, f);
    var cut := |w| - |r|;
    assert w[|prefix|] == rest[0];
    assert cut <= |prefix|;
    assert r[0] == w[cut];
    assert cut == |prefix|;
    assert w[|prefix|..] == rest;
  }

  /** Right-trimming stops at the last rune that does not satisfy `f`. */
  lemma TrimRightWrapped(rest: string, suffix: string, f: char -> bool)
    requires forall i :: 0 <= i < |suffix| ==> f(suffix[i])
    requires rest != [] && !f(rest[|rest| - 1])
    ensures TrimRightFunc(rest + suffix, f) == rest
  {
    var w := rest + suffix;
    var r := TrimRightFunc(w, f);
    assert w[|rest| - 1] == rest[|rest| - 1];
    assert |rest| <= |r|;
    assert r[|r| - 1] == w[|r| - 1];
    assert |r| == |rest|;
    assert w[..|rest|] == rest;
  }

  /** Trimming text wrapped in runes satisfying `f` gives the text back when its ends do not satisfy `f`. */
  lemma TrimFuncWrapped(prefix: string, s: string, suffix: string, f: char -> bool)
    requires forall i :: 0 <= i < |prefix| ==> f(prefix[i])
    requires forall i :: 0 <= i < |suffix| ==> f(suffix[i])
    requires s != [] && !f(s[0]) && !f(s[|s| - 1])
    ensures TrimFunc(prefix + s + suffix, f) == s
  {
    assert prefix + s + suffix == prefix + (s + suffix);
    TrimLeftWrapped(prefix, s + suffix, f);
    TrimRightWrapped(s, suffix, f);
  }

  /** `strings.Trim(s, cutset)`. */
  function Trim(s: string, cutset: set<char>): (r: string)
    ensures exists i :: CutAround(s, cutset, i, r)
    ensures r == [] || (r[0] !in cutset && r[|r| - 1] !in cutset)
  {
    var f := c => c in cutset;
    var r := TrimFunc(s, f);
    assert exists i :: CutAround(s, cutset, i, r) by {
      var i :| TrimmedAt(s, f, i, r);
      CutAroundOfTrimmed(s, cutset, f, i, r);
    }
    r
  }

  /** Trimming text wrapped in runes of `cutset` gives the text back when its ends are not in `cutset`. */
  lemma TrimWrapped(prefix: string, s: string, suffix: string, cutset: set<char>)
    requires forall i :: 0 <= i < |prefix| ==> prefix[i] in cutset
    requires forall i :: 0 <= i < |suffix| ==> suffix[i] in cutset
    requires s != [] && s[0] !in cutset && s[|s| - 1] !in cutset
    ensures Trim(prefix + s + suffix, cutset) == s
  {
    TrimFuncWrapped(prefix, s, suffix, c => c in cutset);
  }

  /** `r` is the slice of `s` starting at `i`, and every rune around it is in `cutset`. */
  lemma CutAroundOfTrimmed(s: string, cutset: set<char>, f: char -> bool, i: nat, r: string)
    requires forall c :: f(c) == (c in cutset)
    requires TrimmedAt(s, f, i, r)
    ensures CutAround(s, cutset, i, r)
  {
  }

  ghost predicate CutAround(s: string, cutset: set<char>, i: nat, r: string) {
    && i + |r| <= |s|
    && r == s[i..i + |r|]
    && (forall k :: 0 <= k < i ==> s[k] in cutset)
    && (forall k :: i + |r| <= k < |s| ==> s[k] in cutset)
  }

  /** `strings.TrimSpace(s)`. */
  function TrimSpace(s: string): string {
    TrimFunc(s, IsSpace)
  }

  /**
   * `TrimSpace` keeps the slice of `s` that starts and ends with a non-space
   * rune, dropping only whitespace around it.
   */
  lemma TrimSpaceTrims(s: string)
    ensures TrimmedAt(s, IsSpace, |s| - |TrimLeftFunc(s, IsSpace)|, TrimSpace(s))
    ensures var r := TrimSpace(s); r == [] || (!IsSpace(r[0]) && !IsSpace(r[|r| - 1]))
  {
    TrimLeftRight(s, IsSpace);
  }

  /** Text with at least three pieces starts with the first three, separator between them. */
  lemma SplitThreeLayout(s: string, sep: char)
    requires |Split(s, sep)| >= 3
    ensures var p := Split(s, sep); p[0] + [sep] + p[1] + [sep] + p[2] <= s
  {
    var p := Split(s, sep);
    var pre := p[0] + [sep] + p[1] + [sep];
    SplitThirdPiece(s, sep);
    if pre + p[2] != s {
      PrefixThrough(pre + p[2], [sep], []);
      assert s[..|pre + p[2]|] == (pre + p[2] + [sep])[..|pre + p[2]|];
    }
  }

  /**
   * The third piece of a split is the whole run between the second and the
   * third separator: the text ends with it, or continues with a separator.
   */
  lemma SplitThirdPiece(s: string, sep: char)
    requires |Split(s, sep)| >= 3
    ensures var p := Split(s, sep); var pre := p[0] + [sep] + p[1] + [sep];
      pre + p[2] == s || pre + p[2] + [sep] <= s
  {
    var p := Split(s, sep);
    JoinSplit(s, sep);
    assert p[1..][1..] == p[2..];
    var tail := Join(p[2..], sep);
    assert s == p[0] + [sep] + Join(p[1..], sep);
    assert Join(p[1..], sep) == p[1] + [sep] + tail;
    var pre := p[0] + [sep] + p[1] + [sep];
    assert s == pre + tail;
    if |p| > 3 {
      assert p[2..][1..] == p[3..];
      assert tail == p[2] + [sep] + Join(p[3..], sep);
      PrefixThrough(pre, p[2] + [sep], Join(p[3..], sep));
    }
  }

  lemma PrefixThrough<T>(a: seq<T>, b: seq<T>, c: seq<T>)
    ensures a + b <= a + (b + c)
  {
    assert (a + (b + c))[..|a + b|] == a + b;
  }
}
