/** Values of JavaScript request bodies and the few string built-ins the route handlers rely on:
    truthiness, `??`, `Number(...)`, `String.prototype.trim`, `toLowerCase` and `parseInt(v, 10)`. */
module Js {

  datatype Option<+T> = None | Some(value: T)
  {
    function GetOr(default: T): T
    {
      if Some? then value else default
    }
  }

  /** A property read from a JSON request body or a query string: absent (`undefined`),
      explicitly `null`, or given. */
  datatype Field<+T> = Undefined | Null | Given(value: T)

  /** `f ?? null` */
  function Nullish<T>(f: Field<T>): Option<T>
  {
    if f.Given? then Some(f.value) else None
  }

  /** `typeof f !== 'undefined'` */
  predicate Supplied<T>(f: Field<T>)
  {
    !f.Undefined?
  }

  /** Truthiness of a string-valued property: given and not the empty string. */
  predicate TruthyText(f: Field<string>)
  {
    f.Given? && f.value != ""
  }

  /** Truthiness of a number-valued property: given and not zero. */
  predicate TruthyInt(f: Field<int>)
  {
    f.Given? && f.value != 0
  }

  /** Truthiness of an optional string (`null`, `undefined` and `""` are falsy). */
  predicate TruthyOpt(o: Option<string>)
  {
    o.Some? && o.value != ""
  }

  /** The result of `Number(...)`; fractional values are not modelled. */
  datatype Num = NaN | Finite(n: int)

  /** `Number(f)`: `undefined` gives NaN, `null` gives 0. */
  function ToNumber(f: Field<Num>): Num
  {
    match f
    case Undefined => NaN
    case Null => Finite(0)
    case Given(x) => x
  }

  /** `Number(f) || 0`: NaN is falsy, so it becomes 0. */
  function NumberOrZero(f: Field<Num>): int
  {
    match ToNumber(f)
    case NaN => 0
    case Finite(n) => n
  }

  /** `Number(f ?? 0)` */
  function NumberOfNullishZero(f: Field<Num>): Num
  {
    if f.Given? then f.value else Finite(0)
  }

  // ---------------------------------------------------------------------------
  // Strings
  // ---------------------------------------------------------------------------

  /** The characters `String.prototype.trim` and `parseInt` skip: ECMAScript WhiteSpace and
      LineTerminator code points. */
  predicate IsSpace(c: char)
  {
    || c == '\t' || c == '\n' || c == '\U{000B}' || c == '\U{000C}' || c == '\r' || c == ' '
    || c == '\U{00A0}' || c == '\U{1680}' || ('\U{2000}' <= c <= '\U{200A}')
    || c == '\U{2028}' || c == '\U{2029}' || c == '\U{202F}' || c == '\U{205F}'
    || c == '\U{3000}' || c == '\U{FEFF}'
  }

  predicate IsBlank(s: string)
  {
    forall i :: 0 <= i < |s| ==> IsSpace(s[i])
  }

  function TrimStart(s: string): (r: string)
    ensures |r| <= |s| && r == s[|s| - |r|..]
    ensures r == "" || !IsSpace(r[0])
  {
    if |s| > 0 && IsSpace(s[0]) then TrimStart(s[1..]) else s
  }

  function TrimEnd(s: string): (r: string)
    ensures |r| <= |s| && r == s[..|r|]
  {
    if |s| > 0 && IsSpace(s[|s| - 1]) then TrimEnd(s[..|s| - 1]) else s
  }

  /** `s.trim()` */
  function Trim(s: string): string
  {
    TrimEnd(TrimStart(s))
  }

  lemma BlankCons(s: string)
    requires |s| > 0
    ensures IsBlank(s) <==> IsSpace(s[0]) && IsBlank(s[1..])
  {
    if IsSpace(s[0]) && IsBlank(s[1..]) {
      forall i | 0 <= i < |s| ensures IsSpace(s[i]) {
        if i > 0 { assert s[i] == s[1..][i - 1]; }
      }
    }
    if IsBlank(s) {
      forall i | 0 <= i < |s| - 1 ensures IsSpace(s[1..][i]) {
        assert s[1..][i] == s[i + 1];
      }
    }
  }

  lemma {:induction false} TrimStartBlank(s: string)
    ensures TrimStart(s) == "" <==> IsBlank(s)
    decreases |s|
  {
    if |s| > 0 {
      BlankCons(s);
      if IsSpace(s[0]) {
        TrimStartBlank(s[1..]);
      }
    }
  }

  lemma {:induction false} TrimEndOfUntrimmedStart(s: string)
    requires s != "" && !IsSpace(s[0])
    ensures TrimEnd(s) != "" && TrimEnd(s)[0] == s[0]
    decreases |s|
  {
    if |s| > 1 && IsSpace(s[|s| - 1]) {
      TrimEndOfUntrimmedStart(s[..|s| - 1]);
    }
  }

  /** A string is blank exactly when trimming leaves nothing: this is the "missing or blank
      name" test of the create handlers. */
  lemma TrimEmptyIffBlank(s: string)
    ensures Trim(s) == "" <==> IsBlank(s)
  {
    var t := TrimStart(s);
    TrimStartBlank(s);
    if t != "" {
      assert !IsSpace(t[0]);
      TrimEndOfUntrimmedStart(t);
    }
  }

  lemma {:induction false} TrimStartFixed(s: string)
    requires s == "" || !IsSpace(s[0])
    ensures TrimStart(s) == s
  {
  }

  lemma {:induction false} TrimEndKeepsStart(s: string)
    ensures TrimEnd(s) == "" || !IsSpace(TrimEnd(s)[|TrimEnd(s)| - 1])
    decreases |s|
  {
    if |s| > 0 && IsSpace(s[|s| - 1]) {
      TrimEndKeepsStart(s[..|s| - 1]);
    }
  }

  lemma {:induction false} TrimEndFixed(s: string)
    requires s == "" || !IsSpace(s[|s| - 1])
    ensures TrimEnd(s) == s
  {
  }

  /** A trimmed string is empty or starts and ends with a non-space. */
  lemma TrimShape(s: string)
    ensures var r := Trim(s); r == "" || (!IsSpace(r[0]) && !IsSpace(r[|r| - 1]))
  {
    var t := TrimStart(s);
    if TrimEnd(t) != "" {
      TrimEndOfUntrimmedStart(t);
      TrimEndKeepsStart(t);
    }
  }

  /** Trimming is idempotent: a name stored trimmed is found again by a trimmed lookup. */
  lemma TrimIdempotent(s: string)
    ensures Trim(Trim(s)) == Trim(s)
  {
    var r := Trim(s);
    TrimShape(s);
    TrimStartFixed(r);
    TrimEndFixed(r);
  }

  function LowerChar(c: char): char
  {
    if 'A' <= c <= 'Z' then (c as int + 32) as char else c
  }

  /** `s.toLowerCase()` on the ASCII letters. No other code point lower-cases to one of the
      letters of "entrada" or "salida", so comparisons against those words are exact. */
  function ToLower(s: string): (r: string)
    ensures |r| == |s|
    ensures forall i :: 0 <= i < |s| ==> r[i] == LowerChar(s[i])
  {
    if s == [] then [] else [LowerChar(s[0])] + ToLower(s[1..])
  }

  /** `xs.join(sep)` */
  function Join(xs: seq<string>, sep: string): string
  {
    if xs == [] then "" else if |xs| == 1 then xs[0] else xs[0] + sep + Join(xs[1..], sep)
  }

  predicate StartsWith(s: string, prefix: string)
  {
    |prefix| <= |s| && s[..|prefix|] == prefix
  }

  // ---------------------------------------------------------------------------
  // Decimal numerals
  // ---------------------------------------------------------------------------

  predicate IsDigit(c: char)
  {
    '0' <= c <= '9'
  }

  function DigitChar(d: nat): char
    requires d < 10
  {
    ('0' as int + d) as char
  }

  /** The value of a digit character (0 for any other character). */
  function DigitValue(c: char): nat
  {
    if IsDigit(c) then c as int - '0' as int else 0
  }

  /** The decimal numeral of `n`, as `String(n)` and template literals print it. */
  function NatToString(n: nat): (r: string)
    ensures |r| > 0
    ensures forall i :: 0 <= i < |r| ==> IsDigit(r[i])
  {
    if n < 10 then [DigitChar(n)] else NatToString(n / 10) + [DigitChar(n % 10)]
  }

  /** The value of a string of digits. */
  function DigitsValue(d: string): nat
  {
    if d == [] then 0 else 10 * DigitsValue(d[..|d| - 1]) + DigitValue(d[|d| - 1])
  }

  /** The longest prefix of `s` made of decimal digits. */
  function DigitPrefix(s: string): string
  {
    if s != [] && IsDigit(s[0]) then [s[0]] + DigitPrefix(s[1..]) else []
  }

  /** The value of the longest run of digits at the start of `s`; None when there is none. */
  function ReadDigits(s: string): Option<nat>
  {
    var digits := DigitPrefix(s);
    if digits == [] then None else Some(DigitsValue(digits))
  }

  /** One optional sign, then digits. */
  function ReadSigned(t: string): Option<int>
  {
    var negative := t != [] && t[0] == '-';
    var body := if t != [] && (t[0] == '-' || t[0] == '+') then t[1..] else t;
    match ReadDigits(body)
    case None => None
    case Some(v) => Some(if negative then -(v as int) else v as int)
  }

  /** `parseInt(s, 10)` with `Number.isFinite` applied: leading white space is skipped, one
      optional sign is read, then the longest run of decimal digits; no digits gives None. */
  function ParseInt(s: string): (r: Option<int>)
  {
    ReadSigned(TrimStart(s))
  }

  lemma {:induction false} NatToStringValue(n: nat)
    ensures DigitsValue(NatToString(n)) == n
  {
    if n >= 10 {
      NatToStringValue(n / 10);
      var s := NatToString(n);
      assert s[..|s| - 1] == NatToString(n / 10);
    }
  }

  lemma {:induction false} DigitPrefixOfDigits(s: string)
    requires forall i :: 0 <= i < |s| ==> IsDigit(s[i])
    ensures DigitPrefix(s) == s
    decreases |s|
  {
    if s != [] {
      DigitPrefixOfDigits(s[1..]);
    }
  }

  /** A run of digits is read as its value. */
  lemma ReadAllDigits(d: string)
    requires d != [] && forall i :: 0 <= i < |d| ==> IsDigit(d[i])
    ensures ReadDigits(d) == Some(DigitsValue(d))
  {
    DigitPrefixOfDigits(d);
  }

  lemma ReadUnsigned(d: string)
    requires d != [] && forall i :: 0 <= i < |d| ==> IsDigit(d[i])
    ensures ReadSigned(d) == Some(DigitsValue(d) as int)
  {
    ReadAllDigits(d);
    assert d[0] != '-' && d[0] != '+';
  }

  lemma ReadNegated(d: string)
    requires d != [] && forall i :: 0 <= i < |d| ==> IsDigit(d[i])
    ensures ReadSigned("-" + d) == Some(-(DigitsValue(d) as int))
  {
    ReadAllDigits(d);
    var m := "-" + d;
    assert m[0] == '-' && m[1..] == d;
  }

  /** parseInt reads back what NatToString prints, and the same with a leading minus sign:
      numbers printed into placeholders and query strings survive the round trip. */
  lemma ParseIntRoundTrip(n: nat)
    ensures ParseInt(NatToString(n)) == Some(n as int)
    ensures ParseInt("-" + NatToString(n)) == Some(-(n as int))
  {
    var s := NatToString(n);
    NatToStringValue(n);
    ReadUnsigned(s);
    ReadNegated(s);
    assert !IsSpace(s[0]);
    TrimStartFixed(s);
    TrimStartFixed("-" + s);
  }

  /** Distinct numbers print differently. */
  lemma NatToStringInjective(m: nat, n: nat)
    requires NatToString(m) == NatToString(n)
    ensures m == n
  {
    NatToStringValue(m);
    NatToStringValue(n);
  }
}
