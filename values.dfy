/**
 * Shared vocabulary for the model: optional values, the dynamically typed
 * values a Firestore document holds, JavaScript truthiness and `String(v)`,
 * and the JavaScript string operations the application relies on
 * (`trim`, `startsWith`, `substring(0, n)`, `padStart`, `parseInt`,
 * `toLowerCase`).
 *
 * Strings are `seq<char>`, one `char` per code unit.
 */
module Values {

  datatype Option<+T> = None | Some(value: T)

  /** The outcome of an operation that may throw: `Err` carries what was thrown. */
  datatype Result<+T, +E> = Ok(value: T) | Err(error: E)

  /** A value stored in a document field. A missing key plays the part of `undefined`. */
  datatype Value = Str(s: string) | Num(n: int) | Bool(b: bool) | Null

  /** A document: field name to value. */
  type Doc = map<string, Value>

  /** JavaScript truthiness (numbers are integers here, so NaN does not arise). */
  predicate Truthy(v: Value)
  {
    match v
    case Str(s) => s != ""
    case Num(n) => n != 0
    case Bool(b) => b
    case Null => false
  }

  /** A possibly missing field read as `data.f`; `None` is `undefined`. */
  predicate TruthyField(v: Option<Value>)
  {
    v.Some? && Truthy(v.value)
  }

  /** `data.f || fallback` for a possibly missing field. */
  function OrElse(v: Option<Value>, fallback: Value): (r: Value)
    ensures TruthyField(v) ==> r == v.value
    ensures !TruthyField(v) ==> r == fallback
  {
    if TruthyField(v) then v.value else fallback
  }

  /** `data.f ?? fallback`: only `undefined` and `null` fall through. */
  function Coalesce(v: Option<Value>, fallback: Option<Value>): (r: Option<Value>)
    ensures v.Some? && v.value != Null ==> r == v
    ensures v == None || v == Some(Null) ==> r == fallback
  {
    if v.Some? && v.value != Null then v else fallback
  }

  function Field(d: Doc, key: string): Option<Value>
  {
    if key in d then Some(d[key]) else None
  }

  /** `String(v)`. */
  function Display(v: Value): string
  {
    match v
    case Str(s) => s
    case Num(n) => IntToString(n)
    case Bool(b) => if b then "true" else "false"
    case Null => "null"
  }

  /** `String(v)` of a truthy value is never empty. */
  lemma TruthyDisplayNonEmpty(v: Value)
    requires Truthy(v)
    ensures Display(v) != ""
  {
  }

  // ---------------------------------------------------------------------
  // Decimal digits

  predicate IsDigit(c: char) { '0' <= c <= '9' }

  predicate AllDigits(s: string) { forall i :: 0 <= i < |s| ==> IsDigit(s[i]) }

  function DigitChar(d: nat): (c: char)
    requires d < 10
    ensures IsDigit(c)
  {
    "0123456789"[d]
  }

  function DigitVal(c: char): (d: nat)
    requires IsDigit(c)
    ensures d < 10
  {
    (c as int - '0' as int) as nat
  }

  lemma DigitRoundTrip(d: nat)
    requires d < 10
    ensures DigitVal(DigitChar(d)) == d
  {
  }

  /** Decimal digits of `n`, without leading zeros. */
  function NatToString(n: nat): (s: string)
    ensures |s| > 0 && AllDigits(s)
    decreases n
  {
    if n < 10 then [DigitChar(n)] else NatToString(n / 10) + [DigitChar(n % 10)]
  }

  /** `String(n)` for an integer. */
  function IntToString(n: int): string
  {
    if n < 0 then "-" + NatToString(-n) else NatToString(n)
  }

  /** The value of a string of decimal digits, read left to right. */
  function DigitsValue(s: string): nat
    requires AllDigits(s)
    decreases |s|
  {
    if s == [] then 0 else DigitsValue(s[..|s| - 1]) * 10 + DigitVal(s[|s| - 1])
  }

  lemma {:induction false} NatToStringRoundTrip(n: nat)
    ensures DigitsValue(NatToString(n)) == n
    decreases n
  {
    var s := NatToString(n);
    if n < 10 {
      DigitRoundTrip(n);
    } else {
      NatToStringRoundTrip(n / 10);
      assert s[..|s| - 1] == NatToString(n / 10);
      DigitRoundTrip(n % 10);
    }
  }

  /** Leading zeros do not change the value of a digit string. */
  lemma {:induction false} LeadingZerosValue(z: string, s: string)
    requires forall i :: 0 <= i < |z| ==> z[i] == '0'
    requires AllDigits(s)
    ensures AllDigits(z + s) && DigitsValue(z + s) == DigitsValue(s)
    decreases |s|
  {
    if s == [] {
      assert z + s == z;
      ZerosValue(z);
    } else {
      var t := z + s;
      assert t[..|t| - 1] == z + s[..|s| - 1];
      LeadingZerosValue(z, s[..|s| - 1]);
    }
  }

  lemma {:induction false} ZerosValue(z: string)
    requires forall i :: 0 <= i < |z| ==> z[i] == '0'
    ensures AllDigits(z) && DigitsValue(z) == 0
    decreases |z|
  {
    if z != [] {
      ZerosValue(z[..|z| - 1]);
    }
  }

  // ---------------------------------------------------------------------
  // Whitespace and trimming (ECMAScript WhiteSpace and LineTerminator)

  predicate IsWhitespace(c: char)
  {
    c == '\t' || c == '\n' || c == '\r' || c == ' ' ||
    c == '\U{000B}' || c == '\U{000C}' || c == '\U{00A0}' || c == '\U{1680}' ||
    ('\U{2000}' <= c <= '\U{200A}') || c == '\U{2028}' || c == '\U{2029}' ||
    c == '\U{202F}' || c == '\U{205F}' || c == '\U{3000}' || c == '\U{FEFF}'
  }

  /** `s.trimStart()`. */
  function TrimStart(s: string): (r: string)
    ensures |r| <= |s| && r == s[|s| - |r|..]
    ensures r == [] || !IsWhitespace(r[0])
    ensures forall i :: 0 <= i < |s| - |r| ==> IsWhitespace(s[i])
    decreases |s|
  {
    if s != [] && IsWhitespace(s[0]) then TrimStart(s[1..]) else s
  }

  /** `s.trimEnd()`. */
  function TrimEnd(s: string): (r: string)
    ensures |r| <= |s| && r == s[..|r|]
    ensures r == [] || !IsWhitespace(r[|r| - 1])
    ensures forall i :: |r| <= i < |s| ==> IsWhitespace(s[i])
    decreases |s|
  {
    if s != [] && IsWhitespace(s[|s| - 1]) then TrimEnd(s[..|s| - 1]) else s
  }

  /** How many characters `trimStart()` drops. */
  function LeadingBlanks(s: string): (k: nat)
    ensures k <= |s|
  {
    |s| - |TrimStart(s)|
  }

  /** `s.trim()`. */
  function Trim(s: string): string
  {
    TrimEnd(TrimStart(s))
  }

  /** `trim()` keeps one stretch of `s` that neither starts nor ends with whitespace. */
  lemma TrimShape(s: string)
    ensures var r := Trim(s);
      && (r == [] || (!IsWhitespace(r[0]) && !IsWhitespace(r[|r| - 1])))
      && LeadingBlanks(s) + |r| <= |s|
      && r == s[LeadingBlanks(s)..LeadingBlanks(s) + |r|]
  {
    TrimEdges(s);
    TrimMiddle(s);
  }

  /** The trimmed string neither starts nor ends with whitespace. */
  lemma TrimEdges(s: string)
    ensures Trim(s) == [] || (!IsWhitespace(Trim(s)[0]) && !IsWhitespace(Trim(s)[|Trim(s)| - 1]))
  {
    var t := TrimStart(s);
    var r := TrimEnd(t);
    if r != [] {
      assert r == t[..|r|];
      assert r[0] == t[0];
    }
  }

  /** The trimmed string is the slice of `s` after its leading whitespace. */
  lemma TrimMiddle(s: string)
    ensures LeadingBlanks(s) + |Trim(s)| <= |s|
    ensures Trim(s) == s[LeadingBlanks(s)..LeadingBlanks(s) + |Trim(s)|]
  {
    var t := TrimStart(s);
    var r := TrimEnd(t);
    var k := |s| - |t|;
    forall i | 0 <= i < |r| ensures r[i] == s[k + i] {
      assert r[i] == t[i];
    }
  }

  lemma TrimEndTail(s: string)
    ensures forall i :: |s| - |TrimStart(s)| + |TrimEnd(TrimStart(s))| <= i < |s| ==> IsWhitespace(s[i])
  {
    var t := TrimStart(s);
    var k := |s| - |t|;
    var r := TrimEnd(t);
    forall i | k + |r| <= i < |s| ensures IsWhitespace(s[i]) {
      assert s[i] == t[i - k];
    }
  }

  /** `trim()` removes only whitespace. */
  lemma TrimDropsOnlyWhitespace(s: string)
    ensures forall i :: 0 <= i < LeadingBlanks(s) ==> IsWhitespace(s[i])
    ensures forall i :: LeadingBlanks(s) + |Trim(s)| <= i < |s| ==> IsWhitespace(s[i])
  {
    TrimEndTail(s);
  }

  /** A string that `trim()` turns into `""` is all whitespace, and back. */
  lemma BlankIffAllWhitespace(s: string)
    ensures Trim(s) == "" <==> forall i :: 0 <= i < |s| ==> IsWhitespace(s[i])
  {
    var k := LeadingBlanks(s);
    if Trim(s) != "" {
      assert s[k] == Trim(s)[0] && !IsWhitespace(s[k]);
    } else {
      TrimDropsOnlyWhitespace(s);
    }
  }

  // ---------------------------------------------------------------------
  // Other string operations

  /** `s.startsWith(p)`. */
  predicate StartsWith(s: string, p: string)
  {
    |p| <= |s| && s[..|p|] == p
  }

  /** `s.substring(0, n)` for `n >= 0`. */
  function Prefix(s: string, n: nat): (r: string)
    ensures |r| == if |s| <= n then |s| else n
    ensures StartsWith(s, r)
  {
    if |s| <= n then s else s[..n]
  }

  /** `n` copies of `c`. */
  function Repeat(c: char, n: nat): (r: string)
    ensures |r| == n && forall i :: 0 <= i < n ==> r[i] == c
  {
    seq(n, _ => c)
  }

  /** `s.padStart(width, c)`. */
  function PadStart(s: string, width: nat, c: char): (r: string)
    ensures |r| == if |s| >= width then |s| else width
    ensures r == Repeat(c, |r| - |s|) + s
  {
    if |s| >= width then s else Repeat(c, width - |s|) + s
  }

  /** `s.toLowerCase()` on the ASCII letters. */
  function ToLower(s: string): (r: string)
    ensures |r| == |s|
  {
    seq(|s|, i requires 0 <= i < |s| =>
      if 'A' <= s[i] <= 'Z' then (s[i] as int + 32) as char else s[i])
  }

  /** The longest prefix of `s` made of decimal digits. */
  function DigitPrefix(s: string): (r: string)
    ensures AllDigits(r) && StartsWith(s, r)
    ensures |r| < |s| ==> !IsDigit(s[|r|])
    decreases |s|
  {
    if s != [] && IsDigit(s[0]) then [s[0]] + DigitPrefix(s[1..]) else []
  }

  /** `parseInt(s, 10)`; `None` stands for `NaN`. */
  function ParseInt(s: string): Option<int>
  {
    ParseSigned(TrimStart(s))
  }

  /** `parseInt` after the leading whitespace: an optional sign, then the longest run of digits. */
  function ParseSigned(t: string): Option<int>
  {
    var neg := t != [] && t[0] == '-';
    var body := if t != [] && (t[0] == '-' || t[0] == '+') then t[1..] else t;
    var ds := DigitPrefix(body);
    if ds == [] then None
    else if neg then Some(-(DigitsValue(ds) as int))
    else Some(DigitsValue(ds))
  }

  /** A string that starts with no whitespace is parsed as it stands. */
  lemma ParseNoLeadingBlank(t: string)
    requires t != [] && !IsWhitespace(t[0])
    ensures ParseInt(t) == ParseSigned(t)
  {
  }

  lemma {:induction false} DigitPrefixOfDigits(s: string)
    requires AllDigits(s)
    ensures DigitPrefix(s) == s
    decreases |s|
  {
    if s != [] { DigitPrefixOfDigits(s[1..]); }
  }

  lemma {:induction false} DigitPrefixStopsAt(z: string, rest: string)
    requires AllDigits(z)
    requires rest == [] || !IsDigit(rest[0])
    ensures DigitPrefix(z + rest) == z
    decreases |z|
  {
    if z != [] {
      assert (z + rest)[1..] == z[1..] + rest;
      DigitPrefixStopsAt(z[1..], rest);
    } else {
      assert z + rest == rest;
    }
  }

  lemma ParseDigits(p: string)
    requires p != [] && AllDigits(p)
    ensures ParseInt(p) == Some(DigitsValue(p))
  {
    ParseNoLeadingBlank(p);
    DigitPrefixOfDigits(p);
  }

  lemma ParseNegative(n: nat)
    ensures ParseInt("-" + NatToString(n)) == Some(-(n as int))
  {
    var ds := NatToString(n);
    var p := "-" + ds;
    ParseNoLeadingBlank(p);
    assert p[1..] == ds;
    DigitPrefixOfDigits(ds);
    NatToStringRoundTrip(n);
  }

  lemma ParseZerosThenSign(z: string, rest: string)
    requires z != [] && forall i :: 0 <= i < |z| ==> z[i] == '0'
    requires rest != [] && rest[0] == '-'
    ensures ParseInt(z + rest) == Some(0)
  {
    var p := z + rest;
    ParseNoLeadingBlank(p);
    ZerosValue(z);
    DigitPrefixStopsAt(z, rest);
  }

  /** Reading back `String(k)` padded to width 5 with zeros never yields less than `k`. */
  lemma ParsePaddedAtLeast(k: int)
    ensures ParseInt(PadStart(IntToString(k), 5, '0')).Some?
    ensures ParseInt(PadStart(IntToString(k), 5, '0')).value >= k
  {
    var s := IntToString(k);
    var z := Repeat('0', |PadStart(s, 5, '0')| - |s|);
    if k >= 0 {
      ParsePaddedNat(k, z);
    } else {
      ParsePaddedNegative(k, z);
    }
  }

  lemma ParsePaddedNegative(k: int, z: string)
    requires k < 0
    requires forall i :: 0 <= i < |z| ==> z[i] == '0'
    ensures ParseInt(z + IntToString(k)).Some?
    ensures ParseInt(z + IntToString(k)).value >= k
  {
    var s := IntToString(k);
    assert s == "-" + NatToString(-k);
    if z == [] {
      assert z + s == s;
      ParseNegativeString(k);
    } else {
      ParseZerosThenSign(z, s);
    }
  }

  lemma ParseNegativeString(k: int)
    requires k < 0
    ensures ParseInt(IntToString(k)) == Some(k)
  {
    var n: nat := -k;
    ParseNegative(n);
    assert IntToString(k) == "-" + NatToString(n);
  }

  lemma ParsePaddedNat(k: nat, z: string)
    requires forall i :: 0 <= i < |z| ==> z[i] == '0'
    ensures ParseInt(z + NatToString(k)) == Some(k)
  {
    var s := NatToString(k);
    LeadingZerosValue(z, s);
    ParseDigits(z + s);
    NatToStringRoundTrip(k);
  }

  // ---------------------------------------------------------------------
  // Arrays

  /** `xs.filter(keep)`: the elements `keep` accepts, in order. */
  function Filter<T>(xs: seq<T>, keep: T -> bool): (r: seq<T>)
    ensures |r| <= |xs|
    decreases |xs|
  {
    if xs == [] then []
    else Filter(xs[..|xs| - 1], keep) + (if keep(xs[|xs| - 1]) then [xs[|xs| - 1]] else [])
  }

  lemma FilterAppend<T>(xs: seq<T>, x: T, keep: T -> bool)
    ensures Filter(xs + [x], keep) == Filter(xs, keep) + (if keep(x) then [x] else [])
  {
    assert (xs + [x])[..|xs|] == xs;
  }

  /** Filtering distributes over putting one element in front. */
  lemma {:induction false} FilterPrepend<T>(x: T, xs: seq<T>, keep: T -> bool)
    ensures Filter([x] + xs, keep) == (if keep(x) then [x] else []) + Filter(xs, keep)
    decreases |xs|
  {
    if xs != [] {
      var init, last := xs[..|xs| - 1], xs[|xs| - 1];
      FilterPrepend(x, init, keep);
      assert ([x] + xs)[..|xs|] == [x] + init;
      assert ([x] + xs)[|xs|] == last;
    }
  }

  /** The filter keeps exactly the accepted elements, and all of them when every element is accepted. */
  lemma {:induction false} FilterExactly<T>(xs: seq<T>, keep: T -> bool)
    ensures forall x :: x in Filter(xs, keep) <==> x in xs && keep(x)
    ensures (forall x :: x in xs ==> keep(x)) ==> Filter(xs, keep) == xs
    decreases |xs|
  {
    if xs != [] {
      var init, last := xs[..|xs| - 1], xs[|xs| - 1];
      FilterExactly(init, keep);
      assert xs == init + [last];
      forall x ensures x in Filter(xs, keep) <==> x in xs && keep(x) {
        assert x in xs <==> x in init || x == last;
      }
    }
  }
}
