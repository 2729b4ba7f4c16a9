/** Field-name derivation from an Avida header, `Converter._generateHeader`
    (code/avida-to-json.py, lines 78-145), as functions over the file's lines.
    The header block is the leading run of stripped lines that are non-empty
    and hold a `#`. A `#format` line gives the field names verbatim; otherwise
    each numbered line `# N: description` gives one camelCase name. */
module Header {
  import opened Text
  import opened Wrappers

  /** The one way header derivation fails: on a numbered line with nothing
      after its tag, `string.capwords` yields the empty text and `line[0]`
      raises `IndexError`. */
  datatype HeaderError = EmptyDescription

  // ------------------------------------------------------------ header block

  /** A stripped line that continues the header block: non-empty, with a `#`. */
  predicate IsHeaderLine(t: string) {
    t != "" && '#' in t
  }

  /** The header block: the stripped lines of the longest prefix of `lines`
      whose stripped lines are header lines (`HeaderBlockSpec`). */
  function HeaderBlock(lines: seq<string>): (block: seq<string>)
    ensures |block| <= |lines|
  {
    if lines == [] then []
    else
      var t := Strip(lines[0]);
      if IsHeaderLine(t) then [t] + HeaderBlock(lines[1..]) else []
  }

  /** The header block holds the stripped lines of a prefix, each a header
      line, and the first line after it (if any) is not one. */
  lemma {:induction false} HeaderBlockSpec(lines: seq<string>)
    ensures var block := HeaderBlock(lines);
      && (forall i :: 0 <= i < |block| ==> block[i] == Strip(lines[i]) && IsHeaderLine(block[i]))
      && (|block| < |lines| ==> !IsHeaderLine(Strip(lines[|block|])))
  {
    if lines != [] && IsHeaderLine(Strip(lines[0])) {
      HeaderBlockSpec(lines[1..]);
    }
  }

  /** One more line of the header block, read at position `i` after the
      lines `read`. */
  lemma {:induction false} HeaderBlockFrom(lines: seq<string>, i: nat, read: seq<string>)
    requires i < |lines| && IsHeaderLine(Strip(lines[i]))
    requires read + HeaderBlock(lines[i..]) == HeaderBlock(lines)
    ensures (read + [Strip(lines[i])]) + HeaderBlock(lines[i + 1..]) == HeaderBlock(lines)
  {
    assert lines[i..][0] == lines[i] && lines[i..][1..] == lines[i + 1..];
    assert HeaderBlock(lines[i..]) == [Strip(lines[i])] + HeaderBlock(lines[i + 1..]);
  }

  /** The header block ends at position `i`: the end of the file, or a line
      that is not a header line. */
  lemma {:induction false} HeaderBlockEnds(lines: seq<string>, i: nat)
    requires i <= |lines| && (i == |lines| || !IsHeaderLine(Strip(lines[i])))
    ensures HeaderBlock(lines[i..]) == []
  {
    if i < |lines| {
      assert lines[i..][0] == lines[i];
    }
  }

  // ------------------------------------------------------------ #format lines

  /** `re.match("#format", line)`. */
  predicate IsFormatLine(line: string) {
    StartsWith(line, "#format")
  }

  /** `line.split(" ")[1:]`: the tokens after the first. */
  function FormatFields(line: string): seq<string> {
    SplitOn(line, ' ')[1..]
  }

  /** A format line built from `#format`, one space and the names joined by
      single spaces yields exactly those names. */
  lemma {:induction false} FormatFieldsOfJoin(names: seq<string>)
    requires |names| >= 1
    requires forall i :: 0 <= i < |names| ==> ' ' !in names[i]
    ensures FormatFields("#format " + JoinWith(names, ' ')) == names
  {
    var joined := JoinWith(names, ' ');
    SplitJoin(names, ' ');
    assert "#format " + joined == "#format" + (" " + joined);
    SplitAfterPiece("#format", " " + joined, ' ');
    assert (" " + joined)[1..] == joined;
  }

  // ----------------------------------------------------------- numbered lines

  /** `tag` is `#`, then `spaces` blanks (at least one), then at least one
      ASCII digit, then `:`. */
  predicate TagWithSpaces(tag: string, spaces: nat) {
    1 <= spaces && spaces + 3 <= |tag| && tag[0] == '#' && tag[|tag| - 1] == ':'
    && (forall i :: 1 <= i <= spaces ==> tag[i] == ' ')
    && (forall i :: spaces < i < |tag| - 1 ==> IsDigit(tag[i]))
  }

  /** `tag` is, as a whole, a match of the regular expression `# +[0-9]+:`. */
  predicate IsNumberedTag(tag: string) {
    exists spaces: nat :: spaces < |tag| && TagWithSpaces(tag, spaces)
  }

  /** How many times `c` repeats at the start of `s`. */
  function RunOf(s: string, c: char): (k: nat)
    ensures k <= |s|
    ensures forall i :: 0 <= i < k ==> s[i] == c
    ensures k < |s| ==> s[k] != c
  {
    if s == [] || s[0] != c then 0 else 1 + RunOf(s[1..], c)
  }

  /** How many ASCII digits `s` starts with. */
  function DigitRun(s: string): (k: nat)
    ensures k <= |s|
    ensures forall i :: 0 <= i < k ==> IsDigit(s[i])
    ensures k < |s| ==> !IsDigit(s[k])
  {
    if s == [] || !IsDigit(s[0]) then 0 else 1 + DigitRun(s[1..])
  }

  /** `re.match("# +[0-9]+:", line)`: the text it matches at the start of
      `line`, if it matches. */
  function NumberedTag(line: string): (m: Option<string>)
    ensures m.Some? ==> StartsWith(line, m.value) && IsNumberedTag(m.value)
  {
    if line == [] || line[0] != '#' then None
    else
      var spaces := RunOf(line[1..], ' ');
      var digits := DigitRun(line[1 + spaces..]);
      var colon := 1 + spaces + digits;
      if 1 <= spaces && 1 <= digits && colon < |line| && line[colon] == ':' then
        assert TagWithSpaces(line[..colon + 1], spaces);
        Some(line[..colon + 1])
      else
        None
  }

  /** Every prefix of `line` that matches `# +[0-9]+:` is the one
      `NumberedTag` returns: the match is found whenever there is one, and it
      is unique. */
  lemma NumberedTagFindsMatch(line: string, k: nat)
    requires k <= |line| && IsNumberedTag(line[..k])
    ensures NumberedTag(line) == Some(line[..k])
  {
    var tag := line[..k];
    var n: nat :| n < |tag| && TagWithSpaces(tag, n);
    var spaces := RunOf(line[1..], ' ');
    assert forall i :: 0 <= i < n ==> line[1..][i] == tag[i + 1];
    assert line[1..][n] == tag[n + 1] && IsDigit(tag[n + 1]);
    assert spaces == n;
    var rest := line[1 + spaces..];
    var digits := DigitRun(rest);
    assert forall i :: 0 <= i < k - 2 - n ==> rest[i] == tag[i + 1 + n];
    assert rest[k - 2 - n] == tag[k - 1] == ':';
    assert digits == k - 2 - n;
  }

  /** The description of a numbered line: every occurrence of the matched
      tag removed (`line.replace(tag, "")`), then stripped. */
  function Description(line: string, tag: string): string
    requires tag != ""
  {
    Strip(RemoveAll(line, tag))
  }

  /** Every character a letter. */
  predicate IsLetters(w: string) {
    forall c :: c in w ==> IsAlpha(c)
  }

  /** Lines 130-139: the field name of a numbered line whose match is `tag`.
      It fails exactly when the description is empty; otherwise it holds
      letters only. */
  function FieldName(line: string, tag: string): (r: Result<string, HeaderError>)
    requires tag != ""
    ensures r.Failure? <==> Description(line, tag) == ""
    ensures r.Success? ==> IsLetters(r.value)
  {
    var d := Description(line, tag);
    var words := CapWords(d);
    StripEnds(RemoveAll(line, tag));
    CapWordsEmpty(d);
    if words == "" then Failure(EmptyDescription)
    else
      var lowered := [ToLower(words[0])] + words[1..];
      KeepAlphaSpec(lowered);
      Success(KeepAlpha(lowered))
  }

  /** The camelCase join of `words`: the first word lower-cased, each later
      word capitalized, only letters kept. */
  function CamelCase(words: seq<string>): string {
    if words == [] then "" else KeepAlpha(LowerAll(words[0])) + CamelTail(words[1..])
  }

  function CamelTail(words: seq<string>): string {
    if words == [] then "" else KeepAlpha(Capitalize(words[0])) + CamelTail(words[1..])
  }

  /** The letters of the capitalized words joined by spaces are the camel tail. */
  lemma {:induction false} KeepAlphaOfJoin(words: seq<string>)
    ensures KeepAlpha(JoinWith(CapitalizeAll(words), ' ')) == CamelTail(words)
  {
    if |words| == 1 {
      assert JoinWith(CapitalizeAll(words), ' ') == Capitalize(words[0]);
    } else if |words| > 1 {
      KeepAlphaOfJoin(words[1..]);
      KeepAlphaOfJoinStep(words);
    }
  }

  /** The step of `KeepAlphaOfJoin`: one more word in front. */
  lemma {:induction false} KeepAlphaOfJoinStep(words: seq<string>)
    requires |words| > 1
    requires KeepAlpha(JoinWith(CapitalizeAll(words[1..]), ' ')) == CamelTail(words[1..])
    ensures KeepAlpha(JoinWith(CapitalizeAll(words), ' ')) == CamelTail(words)
  {
    var caps := CapitalizeAll(words);
    CapitalizeAllCons(words);
    JoinCons(caps, ' ');
    KeepAlphaAroundSpace(caps[0], JoinWith(caps[1..], ' '));
  }

  /** What `capwords` puts after its first word. */
  function AfterFirstWord(caps: seq<string>): string {
    if |caps| <= 1 then "" else [' '] + JoinWith(caps[1..], ' ')
  }

  /** Lower-casing the first character of a capitalized word lower-cases
      the whole word. */
  lemma LowerCapitalized(w: string)
    requires w != ""
    ensures [ToLower(Capitalize(w)[0])] + Capitalize(w)[1..] == LowerAll(w)
  {
    assert ToLower(ToUpper(w[0])) == ToLower(w[0]);
  }

  /** The letters after the first capitalized word are the camel tail. */
  lemma TailLetters(words: seq<string>)
    requires words != []
    ensures KeepAlpha(AfterFirstWord(CapitalizeAll(words))) == CamelTail(words[1..])
  {
    var caps := CapitalizeAll(words);
    assert caps[1..] == CapitalizeAll(words[1..]);
    KeepAlphaOfJoin(words[1..]);
    if |words| > 1 {
      KeepAlphaConcat([' '], JoinWith(caps[1..], ' '));
    }
  }

  /** `capwords` is its first capitalized word followed by the rest. */
  lemma CapWordsShape(d: string)
    requires SplitWhitespace(d) != []
    ensures CapitalizeAll(SplitWhitespace(d))[0] != ""
    ensures CapWords(d) == CapitalizeAll(SplitWhitespace(d))[0] + AfterFirstWord(CapitalizeAll(SplitWhitespace(d)))
  {
    CapitalizeWord(SplitWhitespace(d)[0]);
  }

  /** Lower-casing the first character of a capitalized word followed by
      `rest`, then keeping the letters. */
  lemma LettersOfLoweredFirst(w: string, rest: string)
    requires w != ""
    ensures var s := Capitalize(w) + rest;
      KeepAlpha([ToLower(s[0])] + s[1..]) == KeepAlpha(LowerAll(w)) + KeepAlpha(rest)
  {
    var first := Capitalize(w);
    LowerHead(first, rest);
    LowerCapitalized(w);
    KeepAlphaConcat(LowerAll(w), rest);
  }

  /** Lower-casing the first character of `first + rest` lower-cases the
      first character of `first`. */
  lemma LowerHead(first: string, rest: string)
    requires first != ""
    ensures var s := first + rest;
      [ToLower(s[0])] + s[1..] == ([ToLower(first[0])] + first[1..]) + rest
  {
    var s := first + rest;
    assert s[0] == first[0] && s[1..] == first[1..] + rest;
  }

  /** Lines 136-139 applied to `capwords(d)` give the camelCase join of the
      words of `d`. */
  lemma CamelOfCapWords(d: string)
    requires CapWords(d) != ""
    ensures KeepAlpha([ToLower(CapWords(d)[0])] + CapWords(d)[1..]) == CamelCase(SplitWhitespace(d))
  {
    var ws := SplitWhitespace(d);
    assert ws != [];
    CapWordsShape(d);
    var caps := CapitalizeAll(ws);
    assert caps[0] == Capitalize(ws[0]);
    LettersOfLoweredFirst(ws[0], AfterFirstWord(caps));
    TailLetters(ws);
  }

  /** The field name of a numbered line is the camelCase join of the words
      of its description. */
  lemma FieldNameIsCamelCase(line: string, tag: string)
    requires tag != "" && FieldName(line, tag).Success?
    ensures FieldName(line, tag).value == CamelCase(SplitWhitespace(Description(line, tag)))
  {
    CamelOfCapWords(Description(line, tag));
  }

  /** When the description starts with a letter, the field name starts with
      that letter in lower case. */
  lemma FieldNameFirstLetter(line: string, tag: string)
    requires tag != "" && FieldName(line, tag).Success?
    requires IsAlpha(Description(line, tag)[0])
    ensures FieldName(line, tag).value != ""
    ensures FieldName(line, tag).value[0] == ToLower(Description(line, tag)[0])
  {
    var d := Description(line, tag);
    FieldNameIsCamelCase(line, tag);
    FirstWordStarts(d);
    var words := SplitWhitespace(d);
    var lowered := LowerAll(words[0]);
    assert lowered[0] == ToLower(d[0]);
    KeepAlphaLeadingLetter(lowered);
    assert CamelCase(words) == KeepAlpha(lowered) + CamelTail(words[1..]);
  }

  // ------------------------------------------------------------- derivation

  /** The `for` loop of lines 111-142, entered with the names `acc` already
      collected: a `#format` line replaces them with its tokens and ends the
      loop; a numbered line appends one name; any other line is skipped. */
  function DeriveFrom(block: seq<string>, acc: seq<string>): Result<seq<string>, HeaderError> {
    if block == [] then Success(acc)
    else if IsFormatLine(block[0]) then Success(FormatFields(block[0]))
    else
      match NumberedTag(block[0])
      case None => DeriveFrom(block[1..], acc)
      case Some(tag) =>
        match FieldName(block[0], tag)
        case Failure(e) => Failure(e)
        case Success(name) => DeriveFrom(block[1..], acc + [name])
  }

  /** One step of the loop of lines 111-142 at position `j` of `block`. */
  lemma {:induction false} DeriveFromStep(block: seq<string>, j: nat, acc: seq<string>)
    requires j < |block|
    ensures IsFormatLine(block[j]) ==> DeriveFrom(block[j..], acc) == Success(FormatFields(block[j]))
    ensures !IsFormatLine(block[j]) && NumberedTag(block[j]).None? ==>
      DeriveFrom(block[j..], acc) == DeriveFrom(block[j + 1..], acc)
    ensures !IsFormatLine(block[j]) && NumberedTag(block[j]).Some? ==>
      var name := FieldName(block[j], NumberedTag(block[j]).value);
      DeriveFrom(block[j..], acc) ==
        if name.Failure? then Failure(name.error) else DeriveFrom(block[j + 1..], acc + [name.value])
  {
    assert block[j..][0] == block[j] && block[j..][1..] == block[j + 1..];
  }

  /** The field names derived from a header block. */
  function DeriveHeader(block: seq<string>): Result<seq<string>, HeaderError> {
    DeriveFrom(block, [])
  }

  /** The field names `_generateHeader` derives from a file's lines. */
  function HeaderOf(lines: seq<string>): Result<seq<string>, HeaderError> {
    DeriveHeader(HeaderBlock(lines))
  }

  // ------------------------------------------------- reference definitions

  predicate IsNumbered(line: string) {
    NumberedTag(line).Some?
  }

  /** A numbered line whose description is empty. */
  predicate HasEmptyDescription(line: string) {
    NumberedTag(line).Some? && Description(line, NumberedTag(line).value) == ""
  }

  /** The index of the first `#format` line, `|block|` if there is none. */
  function FirstFormatLine(block: seq<string>): (k: nat)
    ensures k <= |block|
    ensures forall i :: 0 <= i < k ==> !IsFormatLine(block[i])
    ensures k < |block| ==> IsFormatLine(block[k])
  {
    if block == [] || IsFormatLine(block[0]) then 0 else 1 + FirstFormatLine(block[1..])
  }

  function CountNumbered(block: seq<string>): nat {
    if block == [] then 0 else (if IsNumbered(block[0]) then 1 else 0) + CountNumbered(block[1..])
  }

  /** The names of the numbered lines of `block`, in order, one per numbered
      line, each made of letters. */
  function NumberedNames(block: seq<string>): (r: Result<seq<string>, HeaderError>)
    ensures r.Success? ==> |r.value| == CountNumbered(block)
    ensures r.Success? ==> forall j :: 0 <= j < |r.value| ==> IsLetters(r.value[j])
  {
    if block == [] then Success([])
    else
      var rest := NumberedNames(block[1..]);
      match NumberedTag(block[0])
      case None => rest
      case Some(tag) =>
        match FieldName(block[0], tag)
        case Failure(e) => Failure(e)
        case Success(name) =>
          match rest
          case Failure(e) => Failure(e)
          case Success(names) => Success([name] + names)
  }

  /** Naming the numbered lines fails exactly when one of them has an empty
      description. */
  lemma {:induction false} NumberedNamesFail(block: seq<string>)
    ensures NumberedNames(block).Failure? <==> exists i :: 0 <= i < |block| && HasEmptyDescription(block[i])
  {
    if block != [] {
      NumberedNamesFail(block[1..]);
      assert forall i :: 1 <= i < |block| ==> block[i] == block[1..][i - 1];
      if HasEmptyDescription(block[0]) {
        assert NumberedNames(block).Failure?;
      }
    }
  }

  function Prepend(acc: seq<string>, r: Result<seq<string>, HeaderError>): Result<seq<string>, HeaderError> {
    match r
    case Success(names) => Success(acc + names)
    case Failure(e) => Failure(e)
  }

  /** `DeriveFrom` in terms of the reference definitions. */
  lemma {:induction false} DeriveFromSpec(block: seq<string>, acc: seq<string>)
    ensures DeriveFrom(block, acc) ==
      var k := FirstFormatLine(block);
      if k == |block| then Prepend(acc, NumberedNames(block))
      else if NumberedNames(block[..k]).Failure? then NumberedNames(block[..k])
      else Success(FormatFields(block[k]))
  {
    if block != [] && !IsFormatLine(block[0]) {
      var k := FirstFormatLine(block);
      assert block[..k][0] == block[0] && block[..k][1..] == block[1..][..k - 1];
      match NumberedTag(block[0])
      case None =>
        DeriveFromSpec(block[1..], acc);
      case Some(tag) =>
        match FieldName(block[0], tag)
        case Failure(e) =>
        case Success(name) =>
          DeriveFromSpec(block[1..], acc + [name]);
          match NumberedNames(block[1..])
          case Failure(e) =>
          case Success(names) =>
            assert acc + [name] + names == acc + ([name] + names);
    } else if block == [] {
      assert acc + [] == acc;
    } else {
      assert block[..0] == [];
    }
  }

  /** The header is decided by the first `#format` line when there is one:
      its tokens replace every name collected from earlier numbered lines,
      and later lines are ignored (provided no earlier numbered line failed).
      Without one, the header is the names of the numbered lines, one each. */
  lemma HeaderDerivation(block: seq<string>)
    ensures DeriveHeader(block) ==
      var k := FirstFormatLine(block);
      if k == |block| then NumberedNames(block)
      else if NumberedNames(block[..k]).Failure? then NumberedNames(block[..k])
      else Success(FormatFields(block[k]))
  {
    DeriveFromSpec(block, []);
    match NumberedNames(block)
    case Failure(e) =>
    case Success(names) =>
      assert [] + names == names;
  }

  /** Without a `#format` line, the field count is the number of numbered
      lines. */
  lemma FieldCountWithoutFormat(block: seq<string>)
    requires forall i :: 0 <= i < |block| ==> !IsFormatLine(block[i])
    requires DeriveHeader(block).Success?
    ensures |DeriveHeader(block).value| == CountNumbered(block)
  {
    HeaderDerivation(block);
  }
}
