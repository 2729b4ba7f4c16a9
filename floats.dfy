/** Which tokens Python's `float()` turns into a number instead of raising
    `ValueError` (code/avida-to-json.py, lines 175-178): an optional sign,
    then either a decimal literal (digits with single `_` separators between
    them, an optional point, an optional exponent) or `inf`, `infinity`,
    `nan` in any letter case, with whitespace allowed around it (ASCII
    whitespace other than the separators U+001C to U+001F, and any non-ASCII
    whitespace). Digits are the ASCII digits. The value the literal denotes
    is not computed. */
module Floats {
  import opened Text

  /** Python's `digitpart ::= digit (["_"] digit)*`. */
  predicate IsDigitPart(d: string) {
    |d| > 0 && IsDigit(d[0]) && IsDigit(d[|d| - 1])
    && (forall i :: 0 <= i < |d| ==> IsDigit(d[i]) || d[i] == '_')
    && (forall i :: 0 <= i < |d| - 1 ==> d[i] == '_' ==> d[i + 1] != '_')
  }

  /** Index of the first `a` or `b` in `s`, or `|s|` when there is none. */
  function FirstOf(s: string, a: char, b: char): (k: nat)
    ensures k <= |s|
    ensures forall i :: 0 <= i < k ==> s[i] != a && s[i] != b
    ensures k < |s| ==> s[k] == a || s[k] == b
  {
    if s == [] || s[0] == a || s[0] == b then 0 else 1 + FirstOf(s[1..], a, b)
  }

  /** Python's `number ::= [digitpart] "." digitpart | digitpart ["."]`. */
  predicate IsDecimal(m: string) {
    var k := FirstOf(m, '.', '.');
    if k == |m| then IsDigitPart(m)
    else
      var before, after := m[..k], m[k + 1..];
      (before == "" && IsDigitPart(after)) || (IsDigitPart(before) && (after == "" || IsDigitPart(after)))
  }

  /** What may follow the `e` or `E` of an exponent: `["+" | "-"] digitpart`. */
  predicate IsExponentBody(e: string) {
    IsDigitPart(WithoutSign(e))
  }

  /** Python's `floatnumber ::= number [("e" | "E") ["+" | "-"] digitpart]`. */
  predicate IsFloatNumber(u: string) {
    var k := FirstOf(u, 'e', 'E');
    IsDecimal(u[..k]) && (k == |u| || IsExponentBody(u[k + 1..]))
  }

  function WithoutSign(t: string): string {
    if |t| > 0 && (t[0] == '+' || t[0] == '-') then t[1..] else t
  }

  /** `inf`, `infinity` or `nan`, in any letter case. */
  predicate IsSpecial(u: string) {
    LowerAll(u) in {"inf", "infinity", "nan"}
  }

  /** Whitespace that `float()` trims from the ends of a token. CPython
      first turns every non-ASCII character that `isspace` accepts into a
      blank, then trims the C locale's ASCII whitespace (tab, line feed,
      vertical tab, form feed, carriage return, blank); so the separators
      U+001C to U+001F, which `isspace` and `strip()` accept, stay. */
  predicate IsFloatSpace(c: char) {
    IsSpace(c) && !('\U{1C}' <= c <= '\U{1F}')
  }

  function FloatTrimFront(s: string): (r: string)
    ensures |r| <= |s|
  {
    if s != [] && IsFloatSpace(s[0]) then FloatTrimFront(s[1..]) else s
  }

  function FloatTrimBack(s: string): (r: string)
    ensures |r| <= |s|
  {
    if s != [] && IsFloatSpace(s[|s| - 1]) then FloatTrimBack(s[..|s| - 1]) else s
  }

  /** The text `float()` parses once the whitespace at both ends is gone. */
  function FloatTrim(s: string): (r: string)
    ensures |r| <= |s|
  {
    FloatTrimBack(FloatTrimFront(s))
  }

  /** `FloatTrimFront` drops exactly the leading float whitespace. */
  lemma {:induction false} FloatTrimFrontSpec(s: string)
    ensures var r := FloatTrimFront(s);
      && r == s[|s| - |r|..]
      && (forall i :: 0 <= i < |s| - |r| ==> IsFloatSpace(s[i]))
      && (r == [] || !IsFloatSpace(r[0]))
  {
    if s != [] && IsFloatSpace(s[0]) {
      FloatTrimFrontSpec(s[1..]);
      assert forall i :: 1 <= i < |s| ==> s[i] == s[1..][i - 1];
    }
  }

  /** `FloatTrimBack` drops exactly the trailing float whitespace. */
  lemma {:induction false} FloatTrimBackSpec(s: string)
    ensures var r := FloatTrimBack(s);
      && r == s[..|r|]
      && (forall i :: |r| <= i < |s| ==> IsFloatSpace(s[i]))
      && (r == [] || !IsFloatSpace(r[|r| - 1]))
  {
    if s != [] && IsFloatSpace(s[|s| - 1]) {
      FloatTrimBackSpec(s[..|s| - 1]);
    }
  }

  /** `FloatTrim` keeps a slice of its input, starting after the leading
      float whitespace. */
  lemma FloatTrimSlice(s: string)
    ensures var a := |s| - |FloatTrimFront(s)|; var r := FloatTrim(s);
      a + |r| <= |s| && r == s[a..a + |r|]
  {
    var f := FloatTrimFront(s);
    FloatTrimFrontSpec(s);
    FloatTrimBackSpec(f);
  }

  /** `FloatTrim` keeps a slice of its input, everything outside it is float
      whitespace, and the slice neither starts nor ends with any. */
  lemma FloatTrimSpec(s: string)
    ensures var a := |s| - |FloatTrimFront(s)|; var r := FloatTrim(s);
      && a + |r| <= |s|
      && r == s[a..a + |r|]
      && (forall i :: 0 <= i < a ==> IsFloatSpace(s[i]))
      && (forall i :: a + |r| <= i < |s| ==> IsFloatSpace(s[i]))
      && (r == [] || (!IsFloatSpace(r[0]) && !IsFloatSpace(r[|r| - 1])))
  {
    var f := FloatTrimFront(s);
    var a := |s| - |f|;
    FloatTrimFrontSpec(s);
    FloatTrimBackSpec(f);
    var r := FloatTrim(s);
    assert r == f[..|r|];
    if r != [] {
      assert r[0] == f[0];
    }
    assert forall i :: a + |r| <= i < |s| ==> s[i] == f[i - a];
  }

  /** `float(token)` returns a value rather than raising `ValueError`. */
  predicate IsFloatText(token: string) {
    var u := WithoutSign(FloatTrim(token));
    IsFloatNumber(u) || IsSpecial(u)
  }

  predicate AllDigits(d: string) {
    forall i :: 0 <= i < |d| ==> IsDigit(d[i])
  }

  /** A text without whitespace at its ends is its own strip. */
  lemma StripUnpadded(s: string)
    requires s != [] && !IsSpace(s[0]) && !IsSpace(s[|s| - 1])
    ensures Strip(s) == s
  {
    assert LeadingSpaces(s) == 0;
  }

  /** A text without whitespace at its ends is what `float()` parses. */
  lemma FloatTrimUnpadded(s: string)
    requires s != [] && !IsFloatSpace(s[0]) && !IsFloatSpace(s[|s| - 1])
    ensures FloatTrim(s) == s
  {
    assert FloatTrimFront(s) == s;
  }

  /** Float whitespace in front of a text that does not start with any is
      trimmed away. */
  lemma {:induction false} FrontPadded(pre: string, t: string)
    requires forall i :: 0 <= i < |pre| ==> IsFloatSpace(pre[i])
    requires t == [] || !IsFloatSpace(t[0])
    ensures FloatTrimFront(pre + t) == t
  {
    if pre != [] {
      assert (pre + t)[1..] == pre[1..] + t;
      FrontPadded(pre[1..], t);
    }
  }

  /** Float whitespace after a text that does not end with any is trimmed
      away. */
  lemma {:induction false} BackPadded(t: string, post: string)
    requires forall i :: 0 <= i < |post| ==> IsFloatSpace(post[i])
    requires t == [] || !IsFloatSpace(t[|t| - 1])
    ensures FloatTrimBack(t + post) == t
  {
    if post == [] {
      assert t + post == t;
    } else {
      var s := t + post;
      assert s[|s| - 1] == post[|post| - 1];
      assert s[..|s| - 1] == t + post[..|post| - 1];
      BackPadded(t, post[..|post| - 1]);
    }
  }

  /** A run of digits is a digit part and holds no point and no exponent. */
  lemma DigitsAreDigitPart(d: string)
    requires d != [] && AllDigits(d)
    ensures IsDigitPart(d) && FirstOf(d, '.', '.') == |d| && FirstOf(d, 'e', 'E') == |d|
  {
  }

  /** A non-empty run of ASCII digits, such as `"42"`, is a number. */
  lemma DigitsAreFloat(d: string)
    requires d != [] && AllDigits(d)
    ensures IsFloatText(d)
  {
    FloatTrimUnpadded(d);
    DigitsAreDigitPart(d);
    assert WithoutSign(d) == d;
    assert d[..|d|] == d;
  }

  /** Where the point and the exponent letter are in digits around a point. */
  lemma {:induction false} PointedLayout(a: string, b: string)
    requires AllDigits(a) && AllDigits(b)
    ensures var s := a + "." + b;
      && FirstOf(s, '.', '.') == |a| && FirstOf(s, 'e', 'E') == |s|
      && s[..|a|] == a && s[|a| + 1..] == b
  {
    var s := a + "." + b;
    assert s[..|a|] == a && s[|a| + 1..] == b;
    assert forall i :: 0 <= i < |a| ==> s[i] == a[i];
    assert s[|a|] == '.';
    assert forall i :: |a| < i < |s| ==> s[i] == b[i - |a| - 1];
    assert FirstOf(s, '.', '.') == |a|;
    assert FirstOf(s, 'e', 'E') == |s|;
  }

  /** Two runs of digits around a point, such as `"3.14"`, are a number. */
  lemma PointedDigitsAreFloat(a: string, b: string)
    requires a != [] && AllDigits(a) && b != [] && AllDigits(b)
    ensures IsFloatText(a + "." + b)
  {
    var s := a + "." + b;
    assert s[0] == a[0] && s[|s| - 1] == b[|b| - 1];
    FloatTrimUnpadded(s);
    assert WithoutSign(s) == s;
    DigitsAreDigitPart(a);
    DigitsAreDigitPart(b);
    PointedLayout(a, b);
    assert s[..|s|] == s;
    assert IsDecimal(s);
  }

  /** Every decimal literal holds a digit. */
  lemma FloatNumberHasDigit(u: string)
    requires IsFloatNumber(u)
    ensures exists i :: 0 <= i < |u| && IsDigit(u[i])
  {
    var m := u[..FirstOf(u, 'e', 'E')];
    var k := FirstOf(m, '.', '.');
    if k == |m| {
      assert IsDigit(m[0]) && m[0] == u[0];
    } else if m[..k] == "" {
      var after := m[k + 1..];
      assert IsDigit(after[0]) && after[0] == u[k + 1];
    } else {
      assert IsDigit(m[..k][0]) && m[0] == u[0];
    }
  }

  /** A token that `float()` accepts and that does not spell `inf`,
      `infinity` or `nan` holds a digit; so `"abc"` and `"(none)"` are not
      numbers. */
  lemma FloatTextHasDigit(token: string)
    requires IsFloatText(token) && !IsSpecial(WithoutSign(FloatTrim(token)))
    ensures exists i :: 0 <= i < |token| && IsDigit(token[i])
  {
    var t := FloatTrim(token);
    var u := WithoutSign(t);
    FloatNumberHasDigit(u);
    var i :| 0 <= i < |u| && IsDigit(u[i]);
    var j := if |t| > 0 && (t[0] == '+' || t[0] == '-') then i + 1 else i;
    assert t[j] == u[i];
    FloatTrimSlice(token);
    var a := |token| - |FloatTrimFront(token)|;
    assert token[a + j] == t[j];
  }

  /** Digits with float whitespace around them, such as `" 42\n"`, are a
      number: `float()` trims the padding first. */
  lemma PaddedDigitsAreFloat(pre: string, d: string, post: string)
    requires forall i :: 0 <= i < |pre| ==> IsFloatSpace(pre[i])
    requires forall i :: 0 <= i < |post| ==> IsFloatSpace(post[i])
    requires d != [] && AllDigits(d)
    ensures IsFloatText(pre + d + post)
  {
    var x := pre + d + post;
    assert x == pre + (d + post);
    assert (d + post)[0] == d[0];
    FrontPadded(pre, d + post);
    BackPadded(d, post);
    assert FloatTrim(x) == d;
    FloatTrimUnpadded(d);
    DigitsAreFloat(d);
    assert FloatTrim(x) == FloatTrim(d);
  }

  /** The information separators U+001C to U+001F are whitespace to
      `strip()` but not to `float()`: `"1"` followed by one of them stays a
      string. */
  lemma SeparatorIsNotTrimmed(c: char)
    requires '\U{1C}' <= c <= '\U{1F}'
    ensures IsSpace(c) && Strip("1" + [c]) == "1"
    ensures FloatTrim("1" + [c]) == "1" + [c] && !IsFloatText("1" + [c])
  {
    var s := "1" + [c];
    assert LeadingSpaces(s) == 0 && s[0..] == s;
    assert s[..1] == "1" && TrailingSpaces("1") == 0;
    assert TrailingSpaces(s) == 1;
    FloatTrimUnpadded(s);
    assert WithoutSign(s) == s;
    assert FirstOf(s, 'e', 'E') == |s| && s[..|s|] == s;
    assert FirstOf(s, '.', '.') == |s|;
    assert !IsDigitPart(s);
    assert LowerAll(s) == s;
  }
}
