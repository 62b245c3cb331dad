/**
 * Go's `strconv.ParseUint`, `strconv.ParseInt` and `strconv.Atoi`, and the
 * decimal formatting of `fmt`'s `%d` verb.
 *
 * Every error of the Go functions (a syntax error or a range error) is
 * `None` here: the procfs helper treats both alike.
 */
module GoStrconv {
  import opened Wrappers

  /** Go's `lower(c)` (`c | ('x' - 'X')`), which only matters for ASCII letters. */
  function Lower(c: char): char {
    if 'A' <= c <= 'Z' then (c as int + 32) as char else c
  }

  predicate IsDecimalDigit(c: char) {
    '0' <= c <= '9'
  }

  /** The value of a digit in bases up to 36: `0`-`9`, then `a`-`z` in either case. */
  function DigitValue(c: char): (d: Option<nat>)
    ensures d.Some? ==> d.value < 36
    ensures d.Some? <==> IsDecimalDigit(c) || 'a' <= Lower(c) <= 'z'
  {
    if IsDecimalDigit(c) then Some(c as nat - '0' as nat)
    else if 'a' <= Lower(c) <= 'z' then Some(Lower(c) as nat - 'a' as nat + 10)
    else None
  }

  /** `ParseUint` accepts these bit sizes here, a subset of Go's 0..64. */
  predicate ValidBitSize(bitSize: nat) {
    bitSize == 8 || bitSize == 16 || bitSize == 32 || bitSize == 64
  }

  /** `1 << bitSize`: one more than the largest unsigned value of that width. */
  function UintLimit(bitSize: nat): int
    requires ValidBitSize(bitSize)
  {
    if bitSize == 8 then 0x100
    else if bitSize == 16 then 0x1_0000
    else if bitSize == 32 then 0x1_0000_0000
    else 0x1_0000_0000_0000_0000
  }

  /** `1 << (bitSize - 1)`: one more than the largest signed value of that width. */
  function IntLimit(bitSize: nat): int
    requires ValidBitSize(bitSize)
  {
    if bitSize == 8 then 0x80
    else if bitSize == 16 then 0x8000
    else if bitSize == 32 then 0x8000_0000
    else 0x8000_0000_0000_0000
  }

  predicate ValidBase(base: nat) {
    base == 0 || 2 <= base <= 36
  }

  /**
   * The base and the digits of `s` once any base prefix is removed. With base 0
   * the base comes from the text: `0b`, `0o`, `0x` (in either case, and only
   * when at least one more rune follows), a bare leading `0` for octal, and
   * decimal otherwise.
   */
  function BasePrefix(s: string, base: nat): (r: (nat, string))
    requires s != [] && ValidBase(base)
    ensures 2 <= r.0 <= 36
    ensures base != 0 ==> r == (base, s)
    ensures base == 0 && s[0] != '0' ==> r == (10, s)
    ensures |r.1| <= |s| && r.1 == s[|s| - |r.1|..]
    ensures forall m :: 0 <= m < |s| - |r.1| ==> !IsForeign(s[m])
  {
    if base != 0 then (base, s)
    else if s[0] == '0' then
      if |s| >= 3 && Lower(s[1]) == 'b' then (2, s[2..])
      else if |s| >= 3 && Lower(s[1]) == 'o' then (8, s[2..])
      else if |s| >= 3 && Lower(s[1]) == 'x' then (16, s[2..])
      else (8, s[1..])
    else (10, s)
  }

  /**
   * The value of the digit string `s` in `base`, read left to right; an
   * underscore is skipped when `base0` holds (`ParseUint` called with base 0).
   */
  function DigitsValue(s: string, base: nat, base0: bool): Option<nat>
    decreases |s|
  {
    if s == [] then Some(0)
    else
      match DigitsValue(s[..|s| - 1], base, base0)
      case None => None
      case Some(n) =>
        var c := s[|s| - 1];
        if c == '_' && base0 then Some(n)
        else match DigitValue(c)
          case Some(d) => if d < base then Some(AppendDigit(n, base, d)) else None
          case None => None
  }

  /** The value of digits worth `n` followed by one more digit `d`. */
  function AppendDigit(n: nat, base: nat, d: nat): nat {
    n * base + d
  }

  /** What `underscoreOK` last saw: the start, a digit or base prefix, an underscore, anything else. */
  datatype Saw = Start | Digit | Underscore | Other

  function UnderscoreScan(s: string, saw: Saw, hex: bool): bool
    decreases |s|
  {
    if s == [] then saw != Underscore
    else
      var c := s[0];
      if IsDecimalDigit(c) || (hex && 'a' <= Lower(c) <= 'f') then UnderscoreScan(s[1..], Digit, hex)
      else if c == '_' then saw == Digit && UnderscoreScan(s[1..], Underscore, hex)
      else if saw == Underscore then false
      else UnderscoreScan(s[1..], Other, hex)
  }

  /**
   * Go's `underscoreOK`: every underscore stands between two digits, or
   * between a base prefix and a digit.
   */
  function UnderscoreOK(s: string): bool {
    var t := if |s| >= 1 && (s[0] == '-' || s[0] == '+') then s[1..] else s;
    if |t| >= 2 && t[0] == '0' && (Lower(t[1]) == 'b' || Lower(t[1]) == 'o' || Lower(t[1]) == 'x')
    then UnderscoreScan(t[2..], Digit, Lower(t[1]) == 'x')
    else UnderscoreScan(t, Start, false)
  }

  /** `strconv.ParseUint(s, base, bitSize)`. */
  function ParseUint(s: string, base: nat, bitSize: nat): (r: Option<nat>)
    requires ValidBase(base) && ValidBitSize(bitSize)
    ensures r.Some? ==> r.value < UintLimit(bitSize)
    ensures s == [] ==> r == None
  {
    if s == [] then None
    else
      var (b, digits) := BasePrefix(s, base);
      match DigitsValue(digits, b, base == 0)
      case None => None
      case Some(n) =>
        if n >= UintLimit(bitSize) then None
        else if base == 0 && '_' in digits && !UnderscoreOK(s) then None
        else Some(n)
  }

  /** `strconv.ParseInt(s, base, bitSize)`: an optional sign, then what `ParseUint` accepts, within range. */
  function ParseInt(s: string, base: nat, bitSize: nat): (r: Option<int>)
    requires ValidBase(base) && ValidBitSize(bitSize)
    ensures r.Some? ==> -IntLimit(bitSize) <= r.value < IntLimit(bitSize)
    ensures s == [] ==> r == None
  {
    if s == [] then None
    else
      var (neg, body) := SplitSign(s);
      match ParseUint(body, base, bitSize)
      case None => None
      case Some(u) =>
        if !neg && u >= IntLimit(bitSize) then None
        else if neg && u > IntLimit(bitSize) then None
        else Some(if neg then -(u as int) else u)
  }

  /** Whether `s` starts with a minus sign, and `s` without its leading `+` or `-`. */
  function SplitSign(s: string): (r: (bool, string))
    requires s != []
    ensures r.0 <==> s[0] == '-'
    ensures r.1 == if s[0] == '+' || s[0] == '-' then s[1..] else s
  {
    (s[0] == '-', if s[0] == '+' || s[0] == '-' then s[1..] else s)
  }

  /** `strconv.Atoi(s)` on a 64-bit platform: `ParseInt(s, 10, 64)`. */
  function Atoi(s: string): (r: Option<int>)
    ensures r.Some? ==> -0x8000_0000_0000_0000 <= r.value < 0x8000_0000_0000_0000
  {
    ParseInt(s, 10, 64)
  }

  // ---------------------------------------------------------------------------
  // Decimal formatting, as `fmt.Sprintf("%d", n)` writes it
  // ---------------------------------------------------------------------------

  function DecimalDigit(d: nat): (c: char)
    requires d < 10
    ensures IsDecimalDigit(c) && DigitValue(c) == Some(d)
  {
    ('0' as nat + d) as char
  }

  /** The decimal digits of `n`, without leading zeros. */
  function FormatUint(n: nat): (s: string)
    ensures s != []
    ensures forall i :: 0 <= i < |s| ==> IsDecimalDigit(s[i])
    ensures s[0] == '0' <==> n == 0
  {
    if n < 10 then [DecimalDigit(n)] else FormatUint(n / 10) + [DecimalDigit(n % 10)]
  }

  /** `%d` of a signed integer: a minus sign for negative values, then the digits. */
  function FormatInt(n: int): (s: string)
    ensures s != []
    ensures n < 0 <==> s[0] == '-'
  {
    if n < 0 then "-" + FormatUint(-n) else FormatUint(n)
  }

  lemma {:induction false} DigitsValueOfFormat(n: nat, base0: bool)
    ensures DigitsValue(FormatUint(n), 10, base0) == Some(n)
    decreases n
  {
    var s := FormatUint(n);
    if n >= 10 {
      DigitsValueOfFormat(n / 10, base0);
      assert s[..|s| - 1] == FormatUint(n / 10);
    } else {
      assert s[..|s| - 1] == [];
    }
  }

  /**
   * Parsing the decimal text of a number, in base 10 or base 0, gives the
   * number back exactly when it fits the bit size.
   */
  lemma ParseUintFormat(n: nat, base: nat, bitSize: nat)
    requires base == 0 || base == 10
    requires ValidBitSize(bitSize)
    ensures ParseUint(FormatUint(n), base, bitSize) == if n < UintLimit(bitSize) then Some(n) else None
  {
    if base == 0 && n == 0 {
      ParseUintZeroOctal(bitSize);
    } else {
      ParseUintFormatDigits(n, base, bitSize);
    }
  }


  /** In base 0, `0` is an octal prefix with no digits after it, worth zero. */
  lemma ParseUintZeroOctal(bitSize: nat)
    requires ValidBitSize(bitSize)
    ensures ParseUint(FormatUint(0), 0, bitSize) == Some(0)
  {
    var s := FormatUint(0);
    assert |s| == 1;
    assert BasePrefix(s, 0) == (8, s[1..]);
    assert s[1..] == [];
    ParseUintOf(s, 0, bitSize, 8, [], 0);
  }

  /**
   * `ParseUint` succeeds with `n` when, once the prefix is removed, the digits
   * are worth `n`, that fits the bit size, and there is no underscore to check.
   */
  lemma ParseUintOf(s: string, base: nat, bitSize: nat, b: nat, digits: string, n: nat)
    requires ValidBase(base) && ValidBitSize(bitSize) && s != []
    requires BasePrefix(s, base) == (b, digits)
    requires DigitsValue(digits, b, base == 0) == Some(n)
    requires n < UintLimit(bitSize) && '_' !in digits
    ensures ParseUint(s, base, bitSize) == Some(n)
  {
  }

  /** Apart from zero in base 0, the decimal text carries no base prefix and reads as its digits. */
  lemma ParseUintFormatDigits(n: nat, base: nat, bitSize: nat)
    requires base == 10 || (base == 0 && n > 0)
    requires ValidBitSize(bitSize)
    ensures ParseUint(FormatUint(n), base, bitSize) == if n < UintLimit(bitSize) then Some(n) else None
  {
    var s := FormatUint(n);
    assert BasePrefix(s, base) == (10, s);
    DigitsValueOfFormat(n, base == 0);
    if n < UintLimit(bitSize) {
      assert '_' !in s;
      ParseUintOf(s, base, bitSize, 10, s, n);
    }
  }

  /**
   * Parsing the `%d` text of a signed number, in base 10 or base 0, gives the
   * number back exactly when it fits the bit size.
   */
  lemma ParseIntFormat(n: int, base: nat, bitSize: nat)
    requires base == 0 || base == 10
    requires ValidBitSize(bitSize)
    ensures ParseInt(FormatInt(n), base, bitSize)
         == if -IntLimit(bitSize) <= n < IntLimit(bitSize) then Some(n) else None
  {
    if n < 0 {
      ParseIntFormatNegative(n, base, bitSize);
    } else {
      ParseIntFormatNonNegative(n, base, bitSize);
    }
  }

  lemma ParseIntFormatNegative(n: int, base: nat, bitSize: nat)
    requires base == 0 || base == 10
    requires ValidBitSize(bitSize) && n < 0
    ensures ParseInt(FormatInt(n), base, bitSize) == if -IntLimit(bitSize) <= n then Some(n) else None
  {
    var s := FormatInt(n);
    var m: nat := -n;
    assert s == "-" + FormatUint(m);
    assert SplitSign(s) == (true, FormatUint(m));
    ParseUintFormat(m, base, bitSize);
  }

  lemma ParseIntFormatNonNegative(n: nat, base: nat, bitSize: nat)
    requires base == 0 || base == 10
    requires ValidBitSize(bitSize)
    ensures ParseInt(FormatInt(n), base, bitSize) == if n < IntLimit(bitSize) then Some(n) else None
  {
    var s := FormatUint(n);
    assert IsDecimalDigit(s[0]);
    assert SplitSign(s) == (false, s);
    ParseUintFormat(n, base, bitSize);
  }

  /** A rune that is neither an ASCII letter, a decimal digit nor an underscore. */
  predicate IsForeign(c: char) {
    !IsDecimalDigit(c) && !('a' <= Lower(c) <= 'z') && c != '_'
  }

  lemma {:induction false} DigitsValueRejectsForeign(s: string, base: nat, base0: bool, i: nat)
    requires i < |s| && IsForeign(s[i])
    ensures DigitsValue(s, base, base0) == None
    decreases |s|
  {
    if i < |s| - 1 {
      assert s[..|s| - 1][i] == s[i];
      DigitsValueRejectsForeign(s[..|s| - 1], base, base0, i);
    }
  }

  /**
   * A malformed number fails: `ParseInt` rejects any text holding a rune that is
   * not a letter, a digit or an underscore, except for a leading sign.
   */
  lemma ParseIntRejectsForeign(s: string, base: nat, bitSize: nat, i: nat)
    requires ValidBase(base) && ValidBitSize(bitSize)
    requires i < |s| && IsForeign(s[i])
    requires i > 0 || (s[0] != '+' && s[0] != '-')
    ensures ParseInt(s, base, bitSize) == None
  {
    var body := SplitSign(s).1;
    var j := if s[0] == '+' || s[0] == '-' then i - 1 else i;
    assert body[j] == s[i];
    ParseUintRejectsForeign(body, base, bitSize, j);
  }

  lemma ParseUintRejectsForeign(s: string, base: nat, bitSize: nat, j: nat)
    requires ValidBase(base) && ValidBitSize(bitSize)
    requires j < |s| && IsForeign(s[j])
    ensures ParseUint(s, base, bitSize) == None
  {
    var (b, digits) := BasePrefix(s, base);
    var k := |s| - |digits|;
    assert digits[j - k] == s[j];
    DigitsValueRejectsForeign(digits, b, base == 0, j - k);
  }

  /** Base 0 reads decimal text as decimal. */
  lemma ParseIntDecimalExample()
    ensures ParseInt("42", 0, 32) == Some(42)
  {
    assert SplitSign("42") == (false, "42");
    assert BasePrefix("42", 0) == (10, "42");
    assert "42"[..1] == "4" && "4"[..0] == "";
    assert DigitsValue("42", 10, true) == Some(42);
  }

  /** Base 0 reads a minus sign before decimal text as a negative number. */
  lemma ParseIntNegativeExample()
    ensures ParseInt("-17", 0, 32) == Some(-17)
  {
    assert SplitSign("-17") == (true, "17");
    assert BasePrefix("17", 0) == (10, "17");
    assert "17"[..1] == "1" && "1"[..0] == "";
    assert DigitsValue("17", 10, true) == Some(17);
  }

  /** Base 0 reads `0x` as a hexadecimal prefix. */
  lemma ParseIntHexExample()
    ensures ParseInt("0x1f", 0, 32) == Some(31)
  {
    assert SplitSign("0x1f") == (false, "0x1f");
    assert BasePrefix("0x1f", 0) == (16, "1f");
    assert "1f"[..1] == "1" && "1"[..0] == "";
    assert DigitsValue("1f", 16, true) == Some(31);
  }

  /** Base 0 reads a bare leading `0` as an octal prefix. */
  lemma ParseIntOctalExample()
    ensures ParseInt("010", 0, 32) == Some(8)
  {
    assert SplitSign("010") == (false, "010");
    assert BasePrefix("010", 0) == (8, "10");
    assert "10"[..1] == "1" && "1"[..0] == "";
    assert DigitsValue("10", 8, true) == Some(8);
  }

  /** Base 0 reads `0b` as a binary prefix. */
  lemma ParseIntBinaryExample()
    ensures ParseInt("0b101", 0, 32) == Some(5)
  {
    assert SplitSign("0b101") == (false, "0b101");
    assert BasePrefix("0b101", 0) == (2, "101");
    assert "101"[..2] == "10" && "10"[..1] == "1" && "1"[..0] == "";
    assert DigitsValue("101", 2, true) == Some(5);
  }

  /** A lone letter is no number in base 0: it reads as a decimal digit worth 10 or more. */
  lemma ParseIntRejectsLetter(c: char, bitSize: nat)
    requires ValidBitSize(bitSize) && 'a' <= Lower(c) <= 'z'
    ensures ParseInt([c], 0, bitSize) == None
  {
    ParseUintRejectsLetter(c, bitSize);
    assert SplitSign([c]) == (false, [c]);
  }

  lemma ParseUintRejectsLetter(c: char, bitSize: nat)
    requires ValidBitSize(bitSize) && 'a' <= Lower(c) <= 'z'
    ensures ParseUint([c], 0, bitSize) == None
  {
    DigitsValueRejectsLetter(c);
    assert BasePrefix([c], 0) == (10, [c]);
  }

  lemma DigitsValueRejectsLetter(c: char)
    requires 'a' <= Lower(c) <= 'z'
    ensures DigitsValue([c], 10, true) == None
  {
    assert [c][..0] == [];
    assert DigitValue(c).value >= 10;
  }

  /** A prefix without digits, a non-octal digit after `0` and empty text are errors. */
  lemma ParseIntErrorExamples()
    ensures ParseInt("0x", 0, 32) == None
    ensures ParseInt("08", 0, 32) == None
    ensures ParseInt("", 0, 32) == None
  {
    assert "0x"[1..] == "x" && "x"[..0] == "";
    assert "08"[1..] == "8" && "8"[..0] == "";
    assert SplitSign("0x") == (false, "0x");
    assert SplitSign("08") == (false, "08");
  }
}
