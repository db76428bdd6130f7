/** The Python string operations the print-area parser is built from:
    `str.split` (keeping the last piece, or unpacking exactly two pieces),
    `str.replace` with an empty replacement, and `int()` applied to a string. */
module PyText {
  import opened Wrappers

  // ---------------------------------------------------------------------------
  // s.split(sep)[-1]
  // ---------------------------------------------------------------------------

  /** The last piece of `s.split(sep)`: the text after the last `sep`, or all of
      `s` when `sep` does not occur. The three postconditions determine it: a
      suffix of `s` free of `sep` that is either all of `s` or preceded by `sep`. */
  function AfterLast(s: string, sep: char): (r: string)
    ensures sep !in r
    ensures |r| <= |s| && r == s[|s| - |r|..]
    ensures |r| < |s| ==> s[|s| - |r| - 1] == sep
  {
    if s == [] then []
    else if s[|s| - 1] == sep then []
    else
      var init := s[..|s| - 1];
      assert s == init + [s[|s| - 1]];
      AfterLast(init, sep) + [s[|s| - 1]]
  }

  /** Text without `sep` is its own last piece. */
  lemma AfterLastUnqualified(s: string, sep: char)
    requires sep !in s
    ensures AfterLast(s, sep) == s
  {
  }

  /** Whatever stands before the last `sep` is discarded. */
  lemma {:induction false} AfterLastOfQualified(q: string, s: string, sep: char)
    requires sep !in s
    ensures AfterLast(q + [sep] + s, sep) == s
  {
    var t := q + [sep] + s;
    if s == [] {
      assert t[|t| - 1] == sep;
    } else {
      var init := s[..|s| - 1];
      assert t[..|t| - 1] == q + [sep] + init;
      assert t[|t| - 1] == s[|s| - 1] != sep;
      AfterLastOfQualified(q, init, sep);
      assert init + [s[|s| - 1]] == s;
    }
  }

  // ---------------------------------------------------------------------------
  // a, b = s.split(sep)
  // ---------------------------------------------------------------------------

  /** Unpacking `s.split(sep)` into two names: the text before and after the
      one `sep`, or `None` (Python's `ValueError`) when `sep` does not occur
      exactly once, as SplitInTwoSpec states. */
  function SplitInTwo(s: string, sep: char): (r: Option<(string, string)>)
    ensures r.Some? ==> r.value.0 + [sep] + r.value.1 == s && sep !in r.value.0 && sep !in r.value.1
  {
    if s == [] then None
    else if s[0] == sep then
      if sep in s[1..] then None else Some(([], s[1..]))
    else
      match SplitInTwo(s[1..], sep)
      case None => None
      case Some((a, b)) => Some(([s[0]] + a, b))
  }

  /** The number of occurrences of `c` in `s`. */
  function Count(s: string, c: char): nat {
    if s == [] then 0 else (if s[0] == c then 1 else 0) + Count(s[1..], c)
  }

  lemma {:induction false} CountPositive(s: string, c: char)
    ensures Count(s, c) > 0 <==> c in s
  {
    if s != [] {
      CountPositive(s[1..], c);
      assert c in s <==> s[0] == c || c in s[1..];
    }
  }

  lemma {:induction false} SplitInTwoSpec(s: string, sep: char)
    ensures SplitInTwo(s, sep).Some? <==> Count(s, sep) == 1
  {
    if s != [] {
      var t := s[1..];
      if s[0] == sep {
        CountPositive(t, sep);
      } else {
        SplitInTwoSpec(t, sep);
      }
    }
  }

  /** Splitting undoes joining two `sep`-free pieces with one `sep`. */
  lemma {:induction false} SplitInTwoOfJoin(a: string, b: string, sep: char)
    requires sep !in a && sep !in b
    ensures SplitInTwo(a + [sep] + b, sep) == Some((a, b))
  {
    var t := a + [sep] + b;
    if a == [] {
      assert t[1..] == b;
    } else {
      assert t[1..] == a[1..] + [sep] + b;
      SplitInTwoOfJoin(a[1..], b, sep);
      assert [a[0]] + a[1..] == a;
    }
  }

  // ---------------------------------------------------------------------------
  // s.replace(c, "")
  // ---------------------------------------------------------------------------

  /** `s.replace(c, "")`: `s` with every `c` dropped and the rest kept in
      order (RemoveAllSpec and RemoveAllConcat). */
  function RemoveAll(s: string, c: char): (r: string)
    ensures c !in r
    ensures |r| <= |s|
  {
    if s == [] then []
    else (if s[0] == c then [] else [s[0]]) + RemoveAll(s[1..], c)
  }

  lemma {:induction false} RemoveAllSpec(s: string, c: char)
    ensures multiset(RemoveAll(s, c)) == multiset(s)[c := 0]
  {
    if s != [] {
      assert s == [s[0]] + s[1..];
      RemoveAllSpec(s[1..], c);
    }
  }

  /** Removal keeps the order of what remains: it distributes over concatenation. */
  lemma {:induction false} RemoveAllConcat(a: string, b: string, c: char)
    ensures RemoveAll(a + b, c) == RemoveAll(a, c) + RemoveAll(b, c)
  {
    if a != [] {
      var ab := a + b;
      assert ab[0] == a[0] && ab[1..] == a[1..] + b;
      RemoveAllConcat(a[1..], b, c);
      var head := if a[0] == c then [] else [a[0]];
      calc {
        RemoveAll(ab, c);
        head + RemoveAll(a[1..] + b, c);
        head + (RemoveAll(a[1..], c) + RemoveAll(b, c));
        (head + RemoveAll(a[1..], c)) + RemoveAll(b, c);
        RemoveAll(a, c) + RemoveAll(b, c);
      }
    } else {
      assert a + b == b;
    }
  }

  /** Text without `c` is left as it is. */
  lemma {:induction false} RemoveAllAbsent(s: string, c: char)
    requires c !in s
    ensures RemoveAll(s, c) == s
  {
    if s != [] {
      RemoveAllAbsent(s[1..], c);
      assert [s[0]] + s[1..] == s;
    }
  }

  // ---------------------------------------------------------------------------
  // int(s) for a str argument, in base 10
  // ---------------------------------------------------------------------------

  /** The characters `int()` ignores at both ends of its argument: the C
      white space `\t \n \v \f \r` and the space, and the non-ASCII white
      space that `int()` first turns into a space. The ASCII separators
      U+001C..U+001F count as white space for `str.isspace` but not here. */
  predicate IsSpace(ch: char) {
    || ('\U{0009}' <= ch <= '\U{000D}')
    || ch == ' '
    || ch == '\U{0085}' || ch == '\U{00A0}' || ch == '\U{1680}'
    || ('\U{2000}' <= ch <= '\U{200A}')
    || ch == '\U{2028}' || ch == '\U{2029}' || ch == '\U{202F}'
    || ch == '\U{205F}' || ch == '\U{3000}'
  }

  predicate IsDigit(ch: char) {
    '0' <= ch <= '9'
  }

  predicate IsAsciiLetter(ch: char) {
    ('A' <= ch <= 'Z') || ('a' <= ch <= 'z')
  }

  function DigitValue(ch: char): (d: nat)
    requires IsDigit(ch)
    ensures d < 10
  {
    ch as int - '0' as int
  }

  function DigitChar(d: nat): (ch: char)
    requires d < 10
    ensures IsDigit(ch) && DigitValue(ch) == d
  {
    ('0' as int + d) as char
  }

  /** Every character is white space. */
  predicate AllSpace(s: string) {
    forall i :: 0 <= i < |s| ==> IsSpace(s[i])
  }

  /** `s` without its leading white space. */
  function StripStart(s: string): (r: string)
    ensures |r| <= |s| && r == s[|s| - |r|..]
    ensures AllSpace(s[..|s| - |r|])
    ensures r != [] ==> !IsSpace(r[0])
  {
    if s != [] && IsSpace(s[0]) then StripStart(s[1..]) else s
  }

  /** `s` without its trailing white space. */
  function StripEnd(s: string): (r: string)
    ensures |r| <= |s| && r == s[..|r|]
    ensures AllSpace(s[|r|..])
    ensures r != [] ==> !IsSpace(r[|r| - 1])
  {
    if s != [] && IsSpace(s[|s| - 1]) then
      var r := StripEnd(s[..|s| - 1]);
      assert s[|r|..] == s[..|s| - 1][|r|..] + [s[|s| - 1]];
      r
    else s
  }

  function Strip(s: string): string {
    StripEnd(StripStart(s))
  }

  /** The digit part of a base-10 literal as `int()` reads it, the grammar
      `digit (["_"] digit)*`: digits, where a single underscore may stand
      between two of them. */
  predicate IsDigitRun(d: string)
    decreases |d|
  {
    && |d| > 0
    && IsDigit(d[0])
    && (|d| == 1 || IsDigitRun(d[1..]) || (d[1] == '_' && IsDigitRun(d[2..])))
  }

  lemma {:induction false} DigitsFormRun(d: string)
    requires d != [] && forall i :: 0 <= i < |d| ==> IsDigit(d[i])
    ensures IsDigitRun(d)
  {
    if |d| > 1 {
      DigitsFormRun(d[1..]);
    }
  }

  /** A digit run ends in a digit. */
  lemma {:induction false} RunEndsInDigit(d: string)
    requires IsDigitRun(d)
    ensures IsDigit(d[|d| - 1])
    decreases |d|
  {
    if |d| > 1 {
      if IsDigitRun(d[1..]) {
        RunEndsInDigit(d[1..]);
        assert d[1..][|d| - 2] == d[|d| - 1];
      } else {
        RunEndsInDigit(d[2..]);
        assert d[2..][|d| - 3] == d[|d| - 1];
      }
    }
  }

  /** The value of a digit run, underscores skipped. */
  function RunValue(d: string): nat {
    if d == [] then 0
    else
      var high := RunValue(d[..|d| - 1]);
      if IsDigit(d[|d| - 1]) then 10 * high + DigitValue(d[|d| - 1]) else high
  }

  /** The characters of a digit run are digits and underscores, the first a digit. */
  lemma {:induction false} RunChars(d: string)
    requires IsDigitRun(d)
    ensures IsDigit(d[0])
    ensures forall i :: 0 <= i < |d| ==> IsDigit(d[i]) || d[i] == '_'
    decreases |d|
  {
    if |d| > 1 {
      var k := if IsDigitRun(d[1..]) then 1 else 2;
      var e := d[k..];
      RunChars(e);
      forall i | k <= i < |d| ensures IsDigit(d[i]) || d[i] == '_' {
        assert d[i] == e[i - k];
      }
    }
  }

  predicate NoLetter(s: string) {
    forall i :: 0 <= i < |s| ==> !IsAsciiLetter(s[i])
  }

  predicate HasDigit(s: string) {
    exists i :: 0 <= i < |s| && IsDigit(s[i])
  }

  lemma RunNoLetter(d: string)
    requires IsDigitRun(d)
    ensures NoLetter(d) && HasDigit(d)
  {
    RunChars(d);
  }

  lemma ConcatText(a: string, b: string)
    ensures NoLetter(a) && NoLetter(b) ==> NoLetter(a + b)
    ensures HasDigit(a) || HasDigit(b) ==> HasDigit(a + b)
  {
    var ab := a + b;
    if HasDigit(a) {
      var i :| 0 <= i < |a| && IsDigit(a[i]);
      assert ab[i] == a[i];
    } else if HasDigit(b) {
      var i :| 0 <= i < |b| && IsDigit(b[i]);
      assert ab[|a| + i] == b[i];
    }
  }


  lemma SpaceNoLetter(s: string)
    requires AllSpace(s)
    ensures NoLetter(s)
  {
    forall i | 0 <= i < |s| ensures !IsAsciiLetter(s[i]) {
      assert IsSpace(s[i]);
    }
  }

  /** Stripping at the start drops a prefix of white space. */
  lemma StripStartSlice(s: string)
    ensures var u := StripStart(s);
      s == s[..|s| - |u|] + u && AllSpace(s[..|s| - |u|])
  {
    var u := StripStart(s);
    var k := |s| - |u|;
    assert s == s[..k] + u by {
      assert u == s[k..];
      assert s == s[..k] + s[k..];
    }
  }

  /** Stripping at the end drops a suffix of white space. */
  lemma StripEndSlice(u: string)
    ensures var t := StripEnd(u);
      u == t + u[|t|..] && AllSpace(u[|t|..])
  {
    var t := StripEnd(u);
    var b := u[|t|..];
    forall i | 0 <= i < |b| ensures IsSpace(b[i]) {
      assert b[i] == u[|t| + i];
    }
  }

  /** A digit run, signed or not, holds a digit and no letter. */
  lemma AcceptedStripped(t: string)
    ensures (IsDigitRun(t) || (|t| > 0 && (t[0] == '+' || t[0] == '-') && IsDigitRun(t[1..]))) ==>
      NoLetter(t) && HasDigit(t)
  {
    if IsDigitRun(t) {
      RunNoLetter(t);
    } else if |t| > 0 && (t[0] == '+' || t[0] == '-') && IsDigitRun(t[1..]) {
      RunNoLetter(t[1..]);
      assert t == [t[0]] + t[1..];
      ConcatText([t[0]], t[1..]);
    }
  }

  /** Stripping white space neither adds a letter nor removes a digit. */
  lemma StripText(s: string)
    ensures NoLetter(Strip(s)) ==> NoLetter(s)
    ensures HasDigit(Strip(s)) ==> HasDigit(s)
  {
    var u := StripStart(s);
    var t := StripEnd(u);
    StripStartSlice(s);
    StripEndSlice(u);
    var a := s[..|s| - |u|];
    var b := u[|t|..];
    SpaceNoLetter(a);
    SpaceNoLetter(b);
    ConcatText(t, b);
    ConcatText(a, u);
  }

  /** Text that `int()` accepts holds a digit and no letter. */
  lemma AcceptedText(s: string)
    ensures var t := Strip(s);
      (IsDigitRun(t) || (|t| > 0 && (t[0] == '+' || t[0] == '-') && IsDigitRun(t[1..]))) ==>
        NoLetter(s) && HasDigit(s)
  {
    AcceptedStripped(Strip(s));
    StripText(s);
  }

  /** `int(s)`: `None` where Python raises `ValueError`. White space at either
      end is ignored, one sign is allowed, then a digit run. Accepted text
      holds at least one digit and no letter. */
  function ParseInt(s: string): (r: Option<int>)
    ensures r.Some? ==> NoLetter(s) && HasDigit(s)
  {
    AcceptedText(s);
    var t := Strip(s);
    if |t| > 0 && (t[0] == '+' || t[0] == '-') then
      if IsDigitRun(t[1..]) then
        Some(if t[0] == '-' then -(RunValue(t[1..]) as int) else RunValue(t[1..]))
      else None
    else if IsDigitRun(t) then Some(RunValue(t))
    else None
  }

  /** The canonical decimal form of `n`, as `str(n)` writes it. */
  function Decimal(n: nat): (r: string)
    ensures |r| > 0
    ensures forall i :: 0 <= i < |r| ==> IsDigit(r[i])
  {
    (if n < 10 then [] else Decimal(n / 10)) + [DigitChar(n % 10)]
  }

  lemma {:induction false} RunValueOfDecimal(n: nat)
    ensures RunValue(Decimal(n)) == n
  {
    var d := Decimal(n);
    assert d[..|d| - 1] == if n < 10 then [] else Decimal(n / 10);
    if n >= 10 {
      RunValueOfDecimal(n / 10);
    }
  }

  /** Text that neither begins nor ends with white space is not stripped. */
  lemma StripUnpadded(s: string)
    requires s != [] && !IsSpace(s[0]) && !IsSpace(s[|s| - 1])
    ensures Strip(s) == s
  {
  }

  /** A plain run of digits is read as its value. */
  lemma ParseIntOfDigits(d: string)
    requires d != [] && forall i :: 0 <= i < |d| ==> IsDigit(d[i])
    ensures ParseInt(d) == Some(RunValue(d))
  {
    DigitsFormRun(d);
    StripUnpadded(d);
    assert !(d[0] == '+' || d[0] == '-');
  }

  /** A minus sign followed by a digit run of value `v` is read as `-v`. */
  lemma ParseIntOfSigned(t: string, v: nat)
    requires |t| > 1 && t[0] == '-' && IsDigitRun(t[1..]) && RunValue(t[1..]) == v
    ensures ParseInt(t) == Some(-(v as int))
  {
    RunEndsInDigit(t[1..]);
    assert t[1..][|t| - 2] == t[|t| - 1];
    StripUnpadded(t);
  }

  /** The sign and the digits of `"-" + d`. */
  lemma SignedText(d: string)
    requires d != []
    ensures var t := "-" + d; |t| > 1 && t[0] == '-' && t[1..] == d && t[|t| - 1] == d[|d| - 1]
  {
  }

  /** `int(str(n)) == n`. */
  lemma ParseIntOfDecimal(n: nat)
    ensures ParseInt(Decimal(n)) == Some(n)
  {
    ParseIntOfDigits(Decimal(n));
    RunValueOfDecimal(n);
  }

  /** `int("-" + str(n)) == -n`: a signed row number is accepted. */
  lemma ParseIntOfNegative(n: nat)
    ensures ParseInt("-" + Decimal(n)) == Some(-(n as int))
  {
    var d := Decimal(n);
    DigitsFormRun(d);
    RunValueOfDecimal(n);
    SignedText(d);
    ParseIntOfSigned("-" + d, n);
  }

  /** An ASCII information separator is not stripped: `int("\x1c5")` raises,
      although `str.isspace` holds of U+001C. */
  lemma ParseIntKeepsSeparator(s: string)
    requires s == "\U{001C}5"
    ensures ParseInt(s) == None
  {
    assert s[0] == '\U{001C}' && s[|s| - 1] == '5';
    assert !IsDigit(s[0]);
    StripUnpadded(s);
  }
}
