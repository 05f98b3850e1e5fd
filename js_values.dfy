/**
 * JavaScript values in the positions where the board stores identifiers
 * (sticky, team and sprint ids, the sticky counter), and the few JavaScript
 * operations the board code applies to them: strict equality `===`,
 * `Number(...)`, `String(...)`, `parseInt(...)`, truthiness, `trim()` and
 * `toUpperCase()`.
 */
module JsValues {

  /** A number with an integral value, a string, `NaN`, or `undefined`. */
  datatype Id = Num(n: int) | Str(s: string) | NaN | Undefined

  /** Strict equality `a === b`: `NaN` equals nothing, not even itself. */
  predicate Same(a: Id, b: Id) {
    a == b && !a.NaN?
  }

  /** JavaScript truthiness of a value. */
  predicate Truthy(v: Id) {
    match v
    case Num(n) => n != 0
    case Str(s) => s != ""
    case NaN => false
    case Undefined => false
  }

  predicate IsDigit(c: char) {
    '0' <= c <= '9'
  }

  predicate AllDigits(s: string) {
    forall i :: 0 <= i < |s| ==> IsDigit(s[i])
  }

  function DigitChar(d: nat): (c: char)
    requires d < 10
    ensures IsDigit(c) && (c as int) - ('0' as int) == d
  {
    ['0', '1', '2', '3', '4', '5', '6', '7', '8', '9'][d]
  }

  /** Decimal digits of a natural number, most significant first, no leading zero. */
  function NatDigits(n: nat): string
    decreases n
  {
    if n < 10 then [DigitChar(n)] else NatDigits(n / 10) + [DigitChar(n % 10)]
  }

  /** The value of a string of decimal digits (leading zeros allowed). */
  function DigitsValue(s: string): nat
    requires AllDigits(s)
  {
    if s == [] then 0
    else DigitsValue(s[..|s| - 1]) * 10 + ((s[|s| - 1] as int) - ('0' as int))
  }

  /** `String(n)` for a number with integral value. */
  function Decimal(n: int): string {
    if n < 0 then "-" + NatDigits(-n) else NatDigits(n)
  }

  /**
   * `Number(s)` for a string: the empty string is 0, an optional '-' followed
   * by decimal digits is that integer, anything else is NaN.
   */
  function ParseNumber(s: string): Id {
    if s == "" then Num(0)
    else if AllDigits(s) then Num(DigitsValue(s))
    else if s[0] == '-' && |s| > 1 && AllDigits(s[1..]) then Num(-(DigitsValue(s[1..]) as int))
    else NaN
  }

  /** The longest prefix of `s` made of decimal digits. */
  function LeadingDigits(s: string): (r: string)
    ensures r <= s && AllDigits(r)
    ensures |r| < |s| ==> !IsDigit(s[|r|])
  {
    if s == [] || !IsDigit(s[0]) then [] else [s[0]] + LeadingDigits(s[1..])
  }

  /**
   * `parseInt(s)`: an optional '-' and then as many decimal digits as there
   * are; NaN when there are none.
   */
  function ParseInt(s: string): Id {
    var negative := |s| > 0 && s[0] == '-';
    var digits := LeadingDigits(if negative then s[1..] else s);
    if digits == [] then NaN
    else if negative then Num(-(DigitsValue(digits) as int))
    else Num(DigitsValue(digits))
  }

  /** `Number(v)`: always a number or NaN, and a number stays itself. */
  function ToNumber(v: Id): (r: Id)
    ensures r.Num? || r.NaN?
    ensures v.Num? ==> r == v
  {
    match v
    case Num(_) => v
    case Str(s) => ParseNumber(s)
    case NaN => NaN
    case Undefined => NaN
  }

  /** `Number(a) === Number(b)`. */
  predicate SameNumber(a: Id, b: Id) {
    Same(ToNumber(a), ToNumber(b))
  }

  /** `String(v)`. */
  function Render(v: Id): string {
    match v
    case Num(n) => Decimal(n)
    case Str(s) => s
    case NaN => "NaN"
    case Undefined => "undefined"
  }

  /** `v + 1` after `++` has converted `v` to a number. */
  function Increment(v: Id): (r: Id)
    ensures v.Num? ==> r == Num(v.n + 1)
    ensures !ToNumber(v).Num? ==> r.NaN?
  {
    match ToNumber(v)
    case Num(n) => Num(n + 1)
    case _ => NaN
  }

  lemma {:induction false} NatDigitsRoundTrip(n: nat)
    ensures AllDigits(NatDigits(n)) && |NatDigits(n)| > 0
    ensures DigitsValue(NatDigits(n)) == n
    decreases n
  {
    if n >= 10 {
      NatDigitsRoundTrip(n / 10);
      var s := NatDigits(n);
      assert s[..|s| - 1] == NatDigits(n / 10);
    }
  }

  /** `Number(String(n)) === n`: rendering an integer and reading it back is lossless. */
  lemma {:induction false} NumberOfDecimal(n: int)
    ensures ParseNumber(Decimal(n)) == Num(n)
  {
    NatDigitsRoundTrip(if n < 0 then -n else n);
    if n < 0 {
      var s := Decimal(n);
      assert s[1..] == NatDigits(-n);
      assert !AllDigits(s) by { assert !IsDigit(s[0]); }
    }
  }

  lemma {:induction false} LeadingDigitsOfDigits(s: string)
    requires AllDigits(s)
    ensures LeadingDigits(s) == s
    decreases |s|
  {
    if s != [] {
      LeadingDigitsOfDigits(s[1..]);
    }
  }

  /** `parseInt(String(n)) === n` as well, for every integer. */
  lemma {:induction false} ParseIntOfDecimal(n: int)
    ensures ParseInt(Decimal(n)) == Num(n)
  {
    var m: nat := if n < 0 then -n else n;
    var d := NatDigits(m);
    NatDigitsRoundTrip(m);
    LeadingDigitsOfDigits(d);
    if n < 0 {
      var s := "-" + d;
      assert s[1..] == d;
      assert ParseInt(s) == Num(-(DigitsValue(d) as int));
    } else {
      assert d[0] != '-' by { assert IsDigit(d[0]); }
      assert ParseInt(d) == Num(DigitsValue(d));
    }
  }

  /** The id strings the page reads back from rendered cards and cells. */
  lemma NumberOfRenderedNumber(v: Id)
    requires v.Num?
    ensures ToNumber(Str(Render(v))) == v
    ensures ParseInt(Render(v)) == v
  {
    NumberOfDecimal(v.n);
    ParseIntOfDecimal(v.n);
  }

  /** The white space `String.prototype.trim` removes. */
  predicate IsSpace(c: char) {
    c == ' ' || c == '\t' || c == '\n' || c == '\r' || c == '\U{B}' || c == '\U{C}'
    || c == '\U{A0}' || c == '\U{1680}' || ('\U{2000}' <= c <= '\U{200A}')
    || c == '\U{2028}' || c == '\U{2029}' || c == '\U{202F}' || c == '\U{205F}'
    || c == '\U{3000}' || c == '\U{FEFF}'
  }

  /** The first index at or after `i` that is not white space, or `|s|`. */
  function SkipSpace(s: string, i: nat): (r: nat)
    requires i <= |s|
    ensures i <= r <= |s|
    ensures r < |s| ==> !IsSpace(s[r])
    ensures forall k :: i <= k < r ==> IsSpace(s[k])
    decreases |s| - i
  {
    if i < |s| && IsSpace(s[i]) then SkipSpace(s, i + 1) else i
  }

  /** The smallest `r <= j` such that `s[r..j]` is all white space. */
  function SkipSpaceBack(s: string, j: nat): (r: nat)
    requires j <= |s|
    ensures r <= j
    ensures r > 0 ==> !IsSpace(s[r - 1])
    ensures forall k :: r <= k < j ==> IsSpace(s[k])
  {
    if j > 0 && IsSpace(s[j - 1]) then SkipSpaceBack(s, j - 1) else j
  }

  /** `s.trim()`: the text between the leading and the trailing white space. */
  function Trim(s: string): string {
    var i := SkipSpace(s, 0);
    var j := SkipSpaceBack(s, |s|);
    if i < j then s[i..j] else []
  }

  /**
   * `trim()` keeps a contiguous middle part that neither starts nor ends with
   * white space, and drops only white space around it.
   */
  lemma TrimIsMiddle(s: string)
    ensures exists i, j :: (0 <= i <= j <= |s| && Trim(s) == s[i..j]
                            && (i < j ==> !IsSpace(s[i]) && !IsSpace(s[j - 1]))
                            && (forall k :: 0 <= k < i ==> IsSpace(s[k]))
                            && (forall k :: j <= k < |s| ==> IsSpace(s[k])))
  {
    var i := SkipSpace(s, 0);
    var j := SkipSpaceBack(s, |s|);
    if i < j {
      assert Trim(s) == s[i..j];
    } else {
      TrimBlank(s);
      assert Trim(s) == s[|s|..|s|];
    }
  }

  /** A title or name is blank exactly when it consists of white space only. */
  lemma TrimBlank(s: string)
    ensures Trim(s) == "" <==> forall k :: 0 <= k < |s| ==> IsSpace(s[k])
  {
    var i := SkipSpace(s, 0);
    var j := SkipSpaceBack(s, |s|);
    if i < j {
      assert Trim(s)[0] == s[i];
    } else {
      forall k | 0 <= k < |s| ensures IsSpace(s[k]) {
        if k >= i {
          assert j <= k;
        }
      }
    }
  }

  /** Trimming twice is trimming once. */
  lemma TrimIdempotent(s: string)
    ensures Trim(Trim(s)) == Trim(s)
  {
    var t := Trim(s);
    if t != [] {
      var i := SkipSpace(s, 0);
      var j := SkipSpaceBack(s, |s|);
      assert t[0] == s[i] && t[|t| - 1] == s[j - 1];
      assert SkipSpace(t, 0) == 0;
      assert SkipSpaceBack(t, |t|) == |t|;
    }
  }

  /** `toUpperCase()` on one character; letters outside a-z are kept. */
  function UpperChar(c: char): char {
    if 'a' <= c <= 'z' then ((c as int) - 32) as char else c
  }

  /** `s.toUpperCase()`, restricted to the letters a-z. */
  function Upper(s: string): (r: string)
    ensures |r| == |s| && forall i :: 0 <= i < |s| ==> r[i] == UpperChar(s[i])
  {
    seq(|s|, i requires 0 <= i < |s| => UpperChar(s[i]))
  }

  /** The two characters are equal, or are the lower- and upper-case forms of one letter a-z. */
  predicate SameLetterIgnoringCase(x: char, y: char) {
    x == y
    || ('a' <= x <= 'z' && (y as int) == (x as int) - 32)
    || ('a' <= y <= 'z' && (x as int) == (y as int) - 32)
  }

  /** The two texts differ at most in the case of letters a-z. */
  predicate SameIgnoringCase(a: string, b: string) {
    |a| == |b| && forall i :: 0 <= i < |a| ==> SameLetterIgnoringCase(a[i], b[i])
  }

  /** Texts that differ only in the case of letters a-z upper-case to the same text, and only those do. */
  lemma UpperIgnoresCase(a: string, b: string)
    ensures SameIgnoringCase(a, b) <==> |a| == |b| && Upper(a) == Upper(b)
  {
    if |a| == |b| && Upper(a) == Upper(b) {
      forall i | 0 <= i < |a| ensures SameLetterIgnoringCase(a[i], b[i]) {
        assert UpperChar(a[i]) == Upper(a)[i] == Upper(b)[i] == UpperChar(b[i]);
      }
    }
    if SameIgnoringCase(a, b) {
      forall i | 0 <= i < |a| ensures Upper(a)[i] == Upper(b)[i] {
        assert SameLetterIgnoringCase(a[i], b[i]);
      }
    }
  }

  /** Upper-casing is idempotent: a code already in upper case is its own upper-cased form. */
  lemma UpperIdempotent(s: string)
    ensures Upper(Upper(s)) == Upper(s)
  {
  }
}
