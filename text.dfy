/** The parts of Python's `str` that the converter relies on: `strip()`,
    `split(" ")`, `split()`, `capitalize()`, `string.capwords`, `isalpha()`,
    `lower()`, `startswith`, substring search and `replace(old, "")`.
    Letter case and `isalpha` are modelled over ASCII letters only; whitespace
    is Python's full `isspace` set. */
module Text {

  /** `c.isspace()` in Python 3. */
  predicate IsSpace(c: char) {
    var n := c as int;
    (9 <= n <= 13) || (28 <= n <= 32) || n == 0x85 || n == 0xA0 || n == 0x1680
    || (0x2000 <= n <= 0x200A) || n == 0x2028 || n == 0x2029 || n == 0x202F
    || n == 0x205F || n == 0x3000
  }

  /** The class `[0-9]` of Python's `re` on a `str` pattern. */
  predicate IsDigit(c: char) { '0' <= c <= '9' }

  predicate IsUpper(c: char) { 'A' <= c <= 'Z' }

  predicate IsLower(c: char) { 'a' <= c <= 'z' }

  /** `c.isalpha()`, restricted to ASCII letters. */
  predicate IsAlpha(c: char) { IsUpper(c) || IsLower(c) }

  function ToLower(c: char): char {
    if IsUpper(c) then (c as int + 32) as char else c
  }

  function ToUpper(c: char): char {
    if IsLower(c) then (c as int - 32) as char else c
  }

  /** `s.lower()`. */
  function LowerAll(s: string): string {
    seq(|s|, i requires 0 <= i < |s| => ToLower(s[i]))
  }

  /** `s.startswith(p)`, which is also what `re.match` does with a pattern
      made of plain characters. */
  predicate StartsWith(s: string, p: string) {
    |p| <= |s| && s[..|p|] == p
  }

  /** `re.search(p, s)` for a pattern `p` that matches only itself:
      `p` occurs somewhere in `s`. */
  predicate ContainsText(s: string, p: string)
    decreases |s|
  {
    StartsWith(s, p) || (s != [] && ContainsText(s[1..], p))
  }

  /** A text always contains each of its suffixes. */
  lemma {:induction false} ContainsSuffix(s: string, p: string)
    ensures ContainsText(s + p, p)
  {
    if s == [] {
      assert s + p == p;
    } else {
      assert (s + p)[1..] == s[1..] + p;
      ContainsSuffix(s[1..], p);
    }
  }

  /** A text lacking some character of `p` does not contain `p`. */
  lemma {:induction false} MissingCharNotContained(s: string, p: string, c: char)
    requires c in p && c !in s
    ensures !ContainsText(s, p)
    decreases |s|
  {
    if |p| <= |s| {
      assert c !in s[..|p|];
    }
    if s != [] {
      assert c !in s[1..];
      MissingCharNotContained(s[1..], p, c);
    }
  }

  // ---------------------------------------------------------------- strip()

  /** How many whitespace characters `s` starts with (`LeadingSpacesSpec`). */
  function LeadingSpaces(s: string): (k: nat)
    ensures k <= |s|
  {
    if s == [] || !IsSpace(s[0]) then 0 else 1 + LeadingSpaces(s[1..])
  }

  /** The leading whitespace run is maximal. */
  lemma {:induction false} LeadingSpacesSpec(s: string)
    ensures forall i :: 0 <= i < LeadingSpaces(s) ==> IsSpace(s[i])
    ensures LeadingSpaces(s) < |s| ==> !IsSpace(s[LeadingSpaces(s)])
  {
    if s != [] && IsSpace(s[0]) {
      LeadingSpacesSpec(s[1..]);
      assert forall i :: 1 <= i < |s| ==> s[i] == s[1..][i - 1];
    }
  }

  /** How many whitespace characters `s` ends with (`TrailingSpacesSpec`). */
  function TrailingSpaces(s: string): (k: nat)
    ensures k <= |s|
  {
    if s == [] || !IsSpace(s[|s| - 1]) then 0 else 1 + TrailingSpaces(s[..|s| - 1])
  }

  /** The trailing whitespace run is maximal. */
  lemma {:induction false} TrailingSpacesSpec(s: string)
    ensures forall i :: |s| - TrailingSpaces(s) <= i < |s| ==> IsSpace(s[i])
    ensures TrailingSpaces(s) < |s| ==> !IsSpace(s[|s| - 1 - TrailingSpaces(s)])
  {
    if s != [] && IsSpace(s[|s| - 1]) {
      TrailingSpacesSpec(s[..|s| - 1]);
      assert forall i :: 0 <= i < |s| - 1 ==> s[i] == s[..|s| - 1][i];
    }
  }

  /** `s.strip()`: whitespace removed from both ends (`StripSpec`). */
  function Strip(s: string): (r: string)
    ensures |r| <= |s|
  {
    var a := LeadingSpaces(s);
    var rest := s[a..];
    rest[..|rest| - TrailingSpaces(rest)]
  }

  /** The strip of `s` is the contiguous middle of `s` that neither starts
      nor ends with whitespace, everything around it being whitespace. */
  lemma StripSpec(s: string)
    ensures var r := Strip(s);
      && (r == "" || (!IsSpace(r[0]) && !IsSpace(r[|r| - 1])))
      && LeadingSpaces(s) + |r| <= |s|
      && r == s[LeadingSpaces(s)..LeadingSpaces(s) + |r|]
      && (forall i :: 0 <= i < LeadingSpaces(s) ==> IsSpace(s[i]))
      && (forall i :: LeadingSpaces(s) + |r| <= i < |s| ==> IsSpace(s[i]))
  {
    LeadingSpacesSpec(s);
    StripSlice(s);
    StripEnds(s);
    StripTrailing(s);
  }

  /** The strip is the slice of `s` that starts after the leading spaces. */
  lemma StripSlice(s: string)
    ensures LeadingSpaces(s) + |Strip(s)| <= |s|
    ensures Strip(s) == s[LeadingSpaces(s)..LeadingSpaces(s) + |Strip(s)|]
  {
    var a := LeadingSpaces(s);
    var rest := s[a..];
    var k := |rest| - TrailingSpaces(rest);
    assert Strip(s) == rest[..k];
    assert rest[..k] == s[a..a + k];
  }

  /** The strip neither starts nor ends with whitespace. */
  lemma StripEnds(s: string)
    ensures Strip(s) == "" || (!IsSpace(Strip(s)[0]) && !IsSpace(Strip(s)[|Strip(s)| - 1]))
  {
    var a := LeadingSpaces(s);
    var rest := s[a..];
    var b := TrailingSpaces(rest);
    LeadingSpacesSpec(s);
    TrailingSpacesSpec(rest);
    var r := rest[..|rest| - b];
    if r != "" {
      assert r[0] == s[a] && r[|r| - 1] == rest[|rest| - 1 - b];
    }
  }

  /** Everything after the strip is whitespace. */
  lemma StripTrailing(s: string)
    ensures LeadingSpaces(s) + |Strip(s)| <= |s|
    ensures forall i :: LeadingSpaces(s) + |Strip(s)| <= i < |s| ==> IsSpace(s[i])
  {
    var a := LeadingSpaces(s);
    var rest := s[a..];
    var r := rest[..|rest| - TrailingSpaces(rest)];
    TrailingSpacesSpec(rest);
    assert forall j :: |r| <= j < |rest| ==> IsSpace(rest[j]);
    forall i | a + |r| <= i < |s|
      ensures IsSpace(s[i])
    {
      assert s[i] == rest[i - a];
    }
  }

  // ------------------------------------------------------------- split(" ")

  /** `s.split(sep)` with an explicit one-character separator: the pieces
      between consecutive separators, empty pieces included. */
  function SplitOn(s: string, sep: char): (parts: seq<string>)
    ensures |parts| >= 1
    ensures forall i :: 0 <= i < |parts| ==> sep !in parts[i]
  {
    if s == [] then [""]
    else
      var rest := SplitOn(s[1..], sep);
      if s[0] == sep then [""] + rest else [[s[0]] + rest[0]] + rest[1..]
  }

  /** `sep.join(parts)`. */
  function JoinWith(parts: seq<string>, sep: char): string {
    if parts == [] then ""
    else if |parts| == 1 then parts[0]
    else parts[0] + [sep] + JoinWith(parts[1..], sep)
  }

  /** A join of two or more parts: the first part, the separator, then the
      join of the rest. */
  lemma JoinCons(parts: seq<string>, sep: char)
    requires |parts| > 1
    ensures JoinWith(parts, sep) == (parts[0] + [sep]) + JoinWith(parts[1..], sep)
  {
  }

  /** Joining the pieces of a split with the same separator gives back the text. */
  lemma {:induction false} JoinSplit(s: string, sep: char)
    ensures JoinWith(SplitOn(s, sep), sep) == s
  {
    if s != [] {
      var rest := SplitOn(s[1..], sep);
      JoinSplit(s[1..], sep);
      if s[0] == sep {
        assert ([""] + rest)[1..] == rest;
      } else if |rest| > 1 {
        assert ([[s[0]] + rest[0]] + rest[1..])[1..] == rest[1..];
      }
    }
  }

  /** Splitting a text that starts with a separator-free piece `w`. */
  lemma {:induction false} SplitAfterPiece(w: string, t: string, sep: char)
    requires sep !in w
    ensures SplitOn(w + t, sep) == [w + SplitOn(t, sep)[0]] + SplitOn(t, sep)[1..]
  {
    if w == [] {
      var parts := SplitOn(t, sep);
      assert w + t == t && w + parts[0] == parts[0];
      assert [parts[0]] + parts[1..] == parts;
    } else {
      assert (w + t)[1..] == w[1..] + t;
      SplitAfterPiece(w[1..], t, sep);
      assert [w[0]] + (w[1..] + SplitOn(t, sep)[0]) == w + SplitOn(t, sep)[0];
    }
  }

  /** Splitting the join of separator-free pieces gives back the pieces. */
  lemma {:induction false} SplitJoin(parts: seq<string>, sep: char)
    requires |parts| >= 1
    requires forall i :: 0 <= i < |parts| ==> sep !in parts[i]
    ensures SplitOn(JoinWith(parts, sep), sep) == parts
  {
    if |parts| == 1 {
      SplitAfterPiece(parts[0], "", sep);
      assert parts[0] + "" == parts[0];
    } else {
      var tail := JoinWith(parts[1..], sep);
      SplitJoin(parts[1..], sep);
      assert ([sep] + tail)[1..] == tail;
      SplitAfterPiece(parts[0], [sep] + tail, sep);
      assert parts[0] + [sep] + tail == parts[0] + ([sep] + tail);
      assert parts[0] + "" == parts[0];
      assert parts == [parts[0]] + parts[1..];
    }
  }

  // ---------------------------------------------------------------- split()

  /** A word of `s.split()`: non-empty, no whitespace. */
  predicate IsWord(w: string) {
    w != "" && forall c :: c in w ==> !IsSpace(c)
  }

  /** How many non-whitespace characters `s` starts with. */
  function WordLength(s: string): (k: nat)
    ensures k <= |s|
    ensures forall i :: 0 <= i < k ==> !IsSpace(s[i])
    ensures k < |s| ==> IsSpace(s[k])
  {
    if s == [] || IsSpace(s[0]) then 0 else 1 + WordLength(s[1..])
  }

  /** `s.split()` with no separator: the maximal runs of non-whitespace
      characters, in order. */
  function SplitWhitespace(s: string): (words: seq<string>)
    ensures forall i :: 0 <= i < |words| ==> IsWord(words[i])
    decreases |s|
  {
    if s == [] then []
    else if IsSpace(s[0]) then SplitWhitespace(s[1..])
    else
      var k := WordLength(s);
      [s[..k]] + SplitWhitespace(s[k..])
  }

  /** A text that starts with a non-space character has a first word, which
      starts with that character. */
  lemma FirstWordStarts(s: string)
    requires s != "" && !IsSpace(s[0])
    ensures SplitWhitespace(s) != [] && SplitWhitespace(s)[0] != "" && SplitWhitespace(s)[0][0] == s[0]
  {
    assert SplitWhitespace(s)[0] == s[..WordLength(s)];
  }

  /** `s.split()` finds no word exactly when `s` is all whitespace. */
  lemma {:induction false} NoWordsIffBlank(s: string)
    ensures SplitWhitespace(s) == [] <==> forall i :: 0 <= i < |s| ==> IsSpace(s[i])
  {
    if s != [] && IsSpace(s[0]) {
      NoWordsIffBlank(s[1..]);
      assert forall i :: 1 <= i < |s| ==> s[i] == s[1..][i - 1];
    }
  }

  /** A word followed by whitespace (or nothing) is the first word. */
  lemma {:induction false} WordThen(w: string, t: string)
    requires IsWord(w)
    requires t == [] || IsSpace(t[0])
    ensures SplitWhitespace(w + t) == [w] + SplitWhitespace(t)
  {
    var s := w + t;
    var k := WordLength(s);
    assert forall i :: 0 <= i < |w| ==> s[i] == w[i] && w[i] in w;
    assert |w| < |s| ==> IsSpace(s[|w|]);
    assert k == |w|;
    assert s[..k] == w && s[k..] == t;
  }

  /** `s.split()` recovers the words that a single-space join put together. */
  lemma {:induction false} SplitWhitespaceJoin(words: seq<string>)
    requires forall i :: 0 <= i < |words| ==> IsWord(words[i])
    ensures SplitWhitespace(JoinWith(words, ' ')) == words
  {
    if |words| == 1 {
      WordThen(words[0], "");
      assert words[0] + "" == words[0];
    } else if |words| > 1 {
      var tail := JoinWith(words[1..], ' ');
      SplitWhitespaceJoin(words[1..]);
      WordThen(words[0], [' '] + tail);
      assert JoinWith(words, ' ') == words[0] + ([' '] + tail);
      assert ([' '] + tail)[1..] == tail;
      assert SplitWhitespace([' '] + tail) == SplitWhitespace(tail);
      assert [words[0]] + words[1..] == words;
    }
  }

  // ------------------------------------------------ capitalize() / capwords

  /** `w.capitalize()`: the first character upper-cased, the rest lower-cased. */
  function Capitalize(w: string): string {
    if w == "" then "" else [ToUpper(w[0])] + LowerAll(w[1..])
  }

  function CapitalizeAll(words: seq<string>): seq<string> {
    seq(|words|, i requires 0 <= i < |words| => Capitalize(words[i]))
  }

  /** The capitalized words of a non-empty list: its first word capitalized,
      then the rest capitalized. */
  lemma CapitalizeAllCons(words: seq<string>)
    requires words != []
    ensures CapitalizeAll(words)[0] == Capitalize(words[0])
    ensures CapitalizeAll(words)[1..] == CapitalizeAll(words[1..])
  {
  }

  /** `string.capwords(s)`: the words of `s.split()`, each capitalized,
      joined with single spaces. */
  function CapWords(s: string): string {
    JoinWith(CapitalizeAll(SplitWhitespace(s)), ' ')
  }

  /** Capitalizing a word leaves a word. */
  lemma CapitalizeWord(w: string)
    requires IsWord(w)
    ensures IsWord(Capitalize(w))
  {
    var r := Capitalize(w);
    forall c | c in r
      ensures !IsSpace(c)
    {
      var i :| 0 <= i < |r| && r[i] == c;
      assert w[i] in w;
    }
  }

  /** The words of `capwords(s)` are the capitalized words of `s`. */
  lemma CapWordsWords(s: string)
    ensures SplitWhitespace(CapWords(s)) == CapitalizeAll(SplitWhitespace(s))
  {
    var ws := CapitalizeAll(SplitWhitespace(s));
    forall i | 0 <= i < |ws|
      ensures IsWord(ws[i])
    {
      CapitalizeWord(SplitWhitespace(s)[i]);
    }
    SplitWhitespaceJoin(ws);
  }

  /** `capwords(s)` is empty exactly when `s` is all whitespace, which is
      when `line[0]` at the converter's camelCase step fails. */
  lemma CapWordsEmpty(s: string)
    ensures CapWords(s) == "" <==> forall i :: 0 <= i < |s| ==> IsSpace(s[i])
  {
    NoWordsIffBlank(s);
    var ws := CapitalizeAll(SplitWhitespace(s));
    if ws != [] {
      CapitalizeWord(SplitWhitespace(s)[0]);
      assert ws[0] != "";
      assert |JoinWith(ws, ' ')| >= |ws[0]|;
    }
  }

  // --------------------------------------------------------------- isalpha

  /** `"".join(x for x in s if x.isalpha())`. */
  function KeepAlpha(s: string): (r: string)
    ensures |r| <= |s|
  {
    if s == [] then [] else (if IsAlpha(s[0]) then [s[0]] else []) + KeepAlpha(s[1..])
  }

  /** The characters kept are exactly the letters of `s`. */
  lemma {:induction false} KeepAlphaSpec(s: string)
    ensures forall c :: c in KeepAlpha(s) <==> c in s && IsAlpha(c)
  {
    if s != [] {
      KeepAlphaSpec(s[1..]);
      assert forall c :: c in s <==> c == s[0] || c in s[1..];
    }
  }

  lemma {:induction false} KeepAlphaConcat(a: string, b: string)
    ensures KeepAlpha(a + b) == KeepAlpha(a) + KeepAlpha(b)
  {
    if a != [] {
      assert (a + b)[1..] == a[1..] + b;
      KeepAlphaConcat(a[1..], b);
    } else {
      assert a + b == b;
    }
  }

  /** A leading letter is kept, and comes first. */
  lemma KeepAlphaLeadingLetter(s: string)
    requires s != "" && IsAlpha(s[0])
    ensures KeepAlpha(s) != "" && KeepAlpha(s)[0] == s[0]
  {
  }

  /** A space between two texts keeps no letter of its own. */
  lemma KeepAlphaAroundSpace(h: string, t: string)
    ensures KeepAlpha((h + [' ']) + t) == KeepAlpha(h) + KeepAlpha(t)
  {
    KeepAlphaConcat(h + [' '], t);
    KeepAlphaConcat(h, [' ']);
    assert KeepAlpha([' ']) == [];
  }

  // ----------------------------------------------------------- replace(p, "")

  /** `s.replace(p, "")`: every occurrence of `p` found in a left-to-right,
      non-overlapping scan is removed. */
  function RemoveAll(s: string, p: string): (r: string)
    requires p != ""
    ensures |r| <= |s|
    decreases |s|
  {
    if |s| < |p| then s
    else if s[..|p|] == p then RemoveAll(s[|p|..], p)
    else [s[0]] + RemoveAll(s[1..], p)
  }

  /** Removing a pattern that does not occur changes nothing. */
  lemma {:induction false} RemoveAbsent(s: string, p: string)
    requires p != "" && !ContainsText(s, p)
    ensures RemoveAll(s, p) == s
  {
    if |s| >= |p| {
      RemoveAbsent(s[1..], p);
      assert [s[0]] + s[1..] == s;
    }
  }

  /** A leading occurrence of the pattern is removed, and the scan goes on
      after it. */
  lemma RemoveLeading(p: string, t: string)
    requires p != ""
    ensures RemoveAll(p + t, p) == RemoveAll(t, p)
  {
    assert (p + t)[..|p|] == p && (p + t)[|p|..] == t;
  }

  /** Text without the pattern's first character is kept as it is, and the
      scan goes on after it. */
  lemma {:induction false} RemoveSkips(a: string, p: string, t: string)
    requires p != "" && p[0] !in a
    ensures RemoveAll(a + t, p) == a + RemoveAll(t, p)
  {
    if a == [] {
      assert a + t == t;
    } else {
      var s := a + t;
      assert s[0] == a[0] && s[1..] == a[1..] + t;
      if |s| >= |p| {
        assert s[..|p|][0] == a[0];
      }
      assert p[0] !in a[1..];
      RemoveSkips(a[1..], p, t);
      assert [a[0]] + (a[1..] + RemoveAll(t, p)) == a + RemoveAll(t, p);
    }
  }

  /** Every occurrence is removed, not only the first: the pattern, a text
      without its first character, the pattern again and another such text
      leave the two texts. */
  lemma RemoveRepeated(p: string, a: string, b: string)
    requires p != "" && p[0] !in a && p[0] !in b
    ensures RemoveAll(p + a + p + b, p) == a + b
  {
    assert p + a + p + b == p + (a + (p + b));
    RemoveLeading(p, a + (p + b));
    RemoveSkips(a, p, p + b);
    RemoveLeading(p, b);
    MissingCharNotContained(b, p, p[0]);
    RemoveAbsent(b, p);
  }
}
