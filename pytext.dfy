/** The text operations the service leans on: Python's `int(str)` and `str(int)`,
    SQL `lower()`, and the order in which text columns are sorted. */
module PyText {
  import opened Values

  /** The characters that Python's `int()` strips from both ends of an ASCII
      string: space, tab, line feed, carriage return, vertical tab and form
      feed. */
  predicate IsSpace(ch: char) {
    ch == ' ' || ch == '\t' || ch == '\n' || ch == '\r' || ch == '\U{0B}' || ch == '\U{0C}'
  }

  predicate IsDigit(ch: char) {
    '0' <= ch <= '9'
  }

  function DigitValue(ch: char): nat
    requires IsDigit(ch)
  {
    ch as int - '0' as int
  }

  function DigitChar(d: nat): char
    requires d < 10
  {
    ('0' as int + d) as char
  }

  function TrimStart(s: string): string {
    if |s| > 0 && IsSpace(s[0]) then TrimStart(s[1..]) else s
  }

  function TrimEnd(s: string): string {
    if |s| > 0 && IsSpace(s[|s| - 1]) then TrimEnd(s[..|s| - 1]) else s
  }

  function Strip(s: string): string {
    TrimEnd(TrimStart(s))
  }

  /** Decimal digits, where a single underscore may separate two digits
      (`int("1_000") == 1000`; `"_1"`, `"1_"` and `"1__0"` are refused). */
  predicate DigitGroups(d: string) {
    && |d| > 0
    && IsDigit(d[0])
    && IsDigit(d[|d| - 1])
    && (forall i :: 0 <= i < |d| ==> IsDigit(d[i]) || d[i] == '_')
    && (forall i :: 0 < i < |d| && d[i] == '_' ==> d[i - 1] != '_')
  }

  /** The value of a run of digits, underscores skipped. */
  function GroupsValue(d: string): nat
    requires forall i :: 0 <= i < |d| ==> IsDigit(d[i]) || d[i] == '_'
  {
    if d == [] then 0
    else if d[|d| - 1] == '_' then GroupsValue(d[..|d| - 1])
    else GroupsValue(d[..|d| - 1]) * 10 + DigitValue(d[|d| - 1])
  }

  /** The most digits Python's `int()` converts from a string: the default of
      `sys.get_int_max_str_digits()`. */
  const MaxStrDigits := 4300

  /** The number of digits in `d`, underscores not counted. */
  function DigitCount(d: string): nat {
    if d == [] then 0
    else DigitCount(d[..|d| - 1]) + (if IsDigit(d[|d| - 1]) then 1 else 0)
  }

  /** An optional sign, then digit groups of at most `MaxStrDigits` digits. */
  function ParseSigned(t: string): Option<int> {
    if |t| > 0 && (t[0] == '+' || t[0] == '-') then
      var d := t[1..];
      if DigitGroups(d) && DigitCount(d) <= MaxStrDigits then
        Some(if t[0] == '-' then -(GroupsValue(d) as int) else GroupsValue(d) as int)
      else None
    else if DigitGroups(t) && DigitCount(t) <= MaxStrDigits then Some(GroupsValue(t) as int)
    else None
  }

  /** Python's `int(s)` for a base-10 string: surrounding whitespace, an
      optional sign, then digit groups of at most `MaxStrDigits` digits.
      `None` stands for the `ValueError`. */
  function ParseInt(s: string): (r: Option<int>)
    ensures r.Some? ==> exists k :: 0 <= k < |s| && IsDigit(s[k])
  {
    var t := Strip(s);
    assert forall k :: 0 <= k < |t| ==> t[k] in s by { StripIsInfix(s); }
    assert ParseSigned(t).Some? ==> IsDigit(t[0]) || IsDigit(t[1]);
    ParseSigned(t)
  }

  predicate AllSpace(w: string) {
    forall i :: 0 <= i < |w| ==> IsSpace(w[i])
  }

  /** `s` is whitespace `w1`, an optional sign, digit groups `d`, whitespace `w2`. */
  predicate IntShape(s: string, w1: string, sign: string, d: string, w2: string) {
    && s == w1 + sign + d + w2
    && AllSpace(w1) && AllSpace(w2)
    && (sign == "" || sign == "+" || sign == "-")
    && DigitGroups(d)
  }

  /** What `int()` makes of a string of that shape: the signed value of the
      digits, or the `ValueError` when they are more than `MaxStrDigits`. */
  lemma ParseIntOf(w1: string, sign: string, d: string, w2: string)
    requires IntShape(w1 + sign + d + w2, w1, sign, d, w2)
    ensures ParseInt(w1 + sign + d + w2) ==
      if DigitCount(d) <= MaxStrDigits then Some(if sign == "-" then -(GroupsValue(d) as int) else GroupsValue(d) as int)
      else None
  {
    var x := sign + d;
    assert x[0] == (if sign == "" then d[0] else sign[0]) && x[|x| - 1] == d[|d| - 1];
    assert w1 + sign + d + w2 == w1 + x + w2;
    StripPadded(w1, x, w2);
    ParseSignedOf(sign, d);
  }

  lemma ParseSignedOf(sign: string, d: string)
    requires (sign == "" || sign == "+" || sign == "-") && DigitGroups(d)
    ensures ParseSigned(sign + d) ==
      if DigitCount(d) <= MaxStrDigits then Some(if sign == "-" then -(GroupsValue(d) as int) else GroupsValue(d) as int)
      else None
  {
    var x := sign + d;
    if sign == "" {
      assert x == d && IsDigit(x[0]);
    } else {
      assert x[1..] == d;
      assert x[0] == '-' <==> sign == "-";
    }
  }

  /** Stripping removes exactly the whitespace around a text that neither
      starts nor ends with whitespace. */
  lemma StripPadded(w1: string, x: string, w2: string)
    requires AllSpace(w1) && AllSpace(w2) && x != [] && !IsSpace(x[0]) && !IsSpace(x[|x| - 1])
    ensures Strip(w1 + x + w2) == x
  {
    assert w1 + x + w2 == w1 + (x + w2);
    TrimStartSpaces(w1, x + w2);
    TrimEndSpaces(x, w2);
  }

  /** Every string `int()` accepts has that shape. */
  lemma ParseIntAccepted(s: string)
    requires ParseInt(s).Some?
    ensures exists w1, sign, d, w2 :: IntShape(s, w1, sign, d, w2)
  {
    var w1, t, w2 := StripSplit(s);
    if t[0] == '+' || t[0] == '-' {
      assert t == t[..1] + t[1..];
      assert IntShape(s, w1, t[..1], t[1..], w2);
    } else {
      assert s == w1 + "" + t + w2;
      assert IntShape(s, w1, "", t, w2);
    }
  }

  /** A string is the whitespace `Strip` removes in front, the stripped text
      and the whitespace it removes behind. */
  lemma StripSplit(s: string) returns (w1: string, t: string, w2: string)
    ensures t == Strip(s) && s == w1 + t + w2 && AllSpace(w1) && AllSpace(w2)
  {
    TrimStartIsSuffix(s);
    var u := TrimStart(s);
    TrimEndIsPrefix(u);
    t := TrimEnd(u);
    w1, w2 := s[..|s| - |u|], u[|t|..];
    assert u == t + w2;
    assert s == w1 + u;
  }

  lemma {:induction false} TrimStartSpaces(w: string, t: string)
    requires AllSpace(w) && (t == [] || !IsSpace(t[0]))
    ensures TrimStart(w + t) == t
  {
    if w != [] {
      assert (w + t)[1..] == w[1..] + t;
      TrimStartSpaces(w[1..], t);
    }
  }

  lemma {:induction false} TrimEndSpaces(t: string, w: string)
    requires AllSpace(w) && (t == [] || !IsSpace(t[|t| - 1]))
    ensures TrimEnd(t + w) == t
  {
    if w != [] {
      assert (t + w)[..|t + w| - 1] == t + w[..|w| - 1];
      TrimEndSpaces(t, w[..|w| - 1]);
    }
  }

  lemma {:induction false} StripIsInfix(s: string)
    ensures forall k :: 0 <= k < |Strip(s)| ==> Strip(s)[k] in s
  {
    TrimStartIsSuffix(s);
    TrimEndIsPrefix(TrimStart(s));
    var a := TrimStart(s);
    var b := TrimEnd(a);
    forall k | 0 <= k < |b| ensures b[k] in s {
      assert b[k] == a[k];
      assert a[k] == s[|s| - |a| + k];
    }
  }

  lemma {:induction false} TrimStartIsSuffix(s: string)
    ensures |TrimStart(s)| <= |s| && TrimStart(s) == s[|s| - |TrimStart(s)|..]
    ensures AllSpace(s[..|s| - |TrimStart(s)|])
  {
    if |s| > 0 && IsSpace(s[0]) {
      TrimStartIsSuffix(s[1..]);
    }
  }

  lemma {:induction false} TrimEndIsPrefix(s: string)
    ensures |TrimEnd(s)| <= |s| && TrimEnd(s) == s[..|TrimEnd(s)|]
    ensures AllSpace(s[|TrimEnd(s)|..])
  {
    if |s| > 0 && IsSpace(s[|s| - 1]) {
      var p := s[..|s| - 1];
      TrimEndIsPrefix(p);
      assert s[|TrimEnd(s)|..] == p[|TrimEnd(p)|..] + [s[|s| - 1]];
    }
  }

  /** Python's `str(n)` for a non-negative `n`. */
  function NatToDecimal(n: nat): (r: string)
    ensures |r| > 0 && forall i :: 0 <= i < |r| ==> IsDigit(r[i])
  {
    if n < 10 then [DigitChar(n)] else NatToDecimal(n / 10) + [DigitChar(n % 10)]
  }

  /** Python's `str(n)`. */
  function IntToDecimal(n: int): string {
    if n < 0 then "-" + NatToDecimal(-n) else NatToDecimal(n)
  }

  lemma {:induction false} NatToDecimalValue(n: nat)
    ensures GroupsValue(NatToDecimal(n)) == n
  {
    if n >= 10 {
      var d := NatToDecimal(n);
      NatToDecimalValue(n / 10);
      assert d[..|d| - 1] == NatToDecimal(n / 10);
    }
  }

  function Pow10(k: nat): nat {
    if k == 0 then 1 else 10 * Pow10(k - 1)
  }

  /** A number below `10^k` has at most `k` decimal digits. */
  lemma {:induction false} NatToDecimalLength(n: nat, k: nat)
    requires 0 < k && n < Pow10(k)
    ensures |NatToDecimal(n)| <= k
  {
    if n >= 10 {
      NatToDecimalLength(n / 10, k - 1);
    }
  }

  /** In a string of digits every character counts. */
  lemma {:induction false} DigitCountAll(d: string)
    requires forall i :: 0 <= i < |d| ==> IsDigit(d[i])
    ensures DigitCount(d) == |d|
  {
    if d != [] {
      DigitCountAll(d[..|d| - 1]);
    }
  }

  /** `str(n)` has at most `MaxStrDigits` digits, so `int()` takes it back. */
  predicate WithinDigitLimit(n: int) {
    |NatToDecimal(if n < 0 then -n else n)| <= MaxStrDigits
  }

  /** `int(str(n)) == n` for every integer of at most `MaxStrDigits` digits
      (by `NatToDecimalLength`, every `n` with `|n| < 10^4300`): every such
      integer the service prints parses back to itself. */
  lemma ParseIntRoundTrip(n: int)
    requires WithinDigitLimit(n)
    ensures ParseInt(IntToDecimal(n)) == Some(n)
  {
    var s := IntToDecimal(n);
    var m := if n < 0 then -n else n;
    var digits := NatToDecimal(m);
    NatToDecimalValue(m);
    DigitCountAll(digits);
    assert !IsSpace(s[0]) && !IsSpace(s[|s| - 1]);
    assert Strip(s) == s;
    if n < 0 {
      assert s[1..] == digits;
    }
  }

  /** SQL `lower()` on one character: ASCII letters only. */
  function LowerChar(ch: char): char {
    if 'A' <= ch <= 'Z' then (ch as int + 32) as char else ch
  }

  /** SQL `lower()`. */
  function Lower(s: string): (r: string)
    ensures |r| == |s|
    ensures forall i :: 0 <= i < |s| ==> !('A' <= r[i] <= 'Z')
  {
    seq(|s|, i requires 0 <= i < |s| => LowerChar(s[i]))
  }

  lemma LowerIdempotent(s: string)
    ensures Lower(Lower(s)) == Lower(s)
  {
  }

  /** Code-point lexicographic order on text: `a` sorts no later than `b`. */
  predicate LexLe(a: string, b: string) {
    if a == [] then true
    else if b == [] then false
    else if a[0] != b[0] then a[0] < b[0]
    else LexLe(a[1..], b[1..])
  }

  lemma {:induction false} LexLeTotal(a: string, b: string)
    ensures LexLe(a, b) || LexLe(b, a)
  {
    if a != [] && b != [] && a[0] == b[0] {
      LexLeTotal(a[1..], b[1..]);
    }
  }

  lemma {:induction false} LexLeTransitive(a: string, b: string, c: string)
    requires LexLe(a, b) && LexLe(b, c)
    ensures LexLe(a, c)
  {
    if a != [] && b != [] && c != [] && a[0] == b[0] && b[0] == c[0] {
      LexLeTransitive(a[1..], b[1..], c[1..]);
    }
  }

  lemma {:induction false} LexLeAntisymmetric(a: string, b: string)
    requires LexLe(a, b) && LexLe(b, a)
    ensures a == b
  {
    if a != [] && b != [] {
      LexLeAntisymmetric(a[1..], b[1..]);
      assert a == [a[0]] + a[1..];
      assert b == [b[0]] + b[1..];
    }
  }
}
