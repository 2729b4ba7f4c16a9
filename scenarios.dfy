/** Concrete files and tokens run through the model: the documented
    behaviour of the converter on small inputs. */
module Scenarios {
  import opened Wrappers
  import opened Text
  import opened Floats
  import opened Header
  import opened Rows
  import opened AvidaToJson

  /** `(none)` is null. */
  lemma NoneIsNull()
    ensures Coerce("(none)") == Null
  {
  }

  /** `3.14` is a number. */
  lemma PointedIsNumber()
    ensures Coerce("3.14") == Number("3.14")
  {
    assert AllDigits("3") && AllDigits("14");
    CoercePointedDigits("3", "14");
    assert "3" + "." + "14" == "3.14";
  }

  /** `abc` stays a string. */
  lemma WordIsString()
    ensures Coerce("abc") == Str("abc")
  {
    FloatTrimUnpadded("abc");
    assert WithoutSign("abc") == "abc";
    assert LowerAll("abc") == "abc";
    CoerceDigitless("abc");
  }

  /** A header that is only `#format a b c` gives the names `a`, `b`, `c`. */
  lemma FormatOnlyHeader()
    ensures DeriveHeader(["#format a b c"]) == Success(["a", "b", "c"])
  {
    FormatFieldsOfJoin(["a", "b", "c"]);
    assert JoinWith(["a", "b", "c"], ' ') == "a b c";
    assert "#format " + "a b c" == "#format a b c";
  }

  /** A line made of a numbered tag and a text without `#` is numbered by
      that tag, and its description is the stripped text. */
  lemma TaggedLine(tag: string, d: string)
    requires IsNumberedTag(tag) && '#' !in d
    ensures NumberedTag(tag + d) == Some(tag)
    ensures Description(tag + d, tag) == Strip(d)
  {
    var spaces: nat :| spaces < |tag| && TagWithSpaces(tag, spaces);
    assert (tag + d)[..|tag|] == tag;
    NumberedTagFindsMatch(tag + d, |tag|);
    RemoveLeading(tag, d);
    MissingCharNotContained(d, tag, '#');
    RemoveAbsent(d, tag);
  }

  /** A line that repeats its numbered tag, such as `# 1: a # 1: b`, is
      numbered by the tag, and both occurrences leave its description. */
  lemma RepeatedTagLine(tag: string, a: string, b: string)
    requires IsNumberedTag(tag) && '#' !in a && '#' !in b
    ensures NumberedTag(tag + a + tag + b) == Some(tag)
    ensures Description(tag + a + tag + b, tag) == Strip(a + b)
  {
    var spaces: nat :| spaces < |tag| && TagWithSpaces(tag, spaces);
    var line := tag + a + tag + b;
    assert line[..|tag|] == tag;
    NumberedTagFindsMatch(line, |tag|);
    RemoveRepeated(tag, a, b);
  }

  /** `# 1: a # 1: b` loses both of its tags. */
  lemma RepeatedTagRemoved()
    ensures RemoveAll("# 1:" + " a " + "# 1:" + " b", "# 1:") == " a " + " b"
  {
    RemoveRepeated("# 1:", " a ", " b");
  }

  /** A text of letters keeps all its characters. */
  lemma {:induction false} KeepLetters(s: string)
    requires forall i :: 0 <= i < |s| ==> IsAlpha(s[i])
    ensures KeepAlpha(s) == s
  {
    if s != [] {
      KeepLetters(s[1..]);
      assert [s[0]] + s[1..] == s;
    }
  }

  /** One leading blank before a text without padding is stripped off. */
  lemma StripOneBlank(s: string)
    requires s != [] && !IsSpace(s[0]) && !IsSpace(s[|s| - 1])
    ensures Strip(" " + s) == s
  {
    assert (" " + s)[1..] == s;
    assert LeadingSpaces(s) == 0;
    assert LeadingSpaces(" " + s) == 1;
    StripUnpadded(s);
  }

  /** Lower-casing or capitalizing a word of letters keeps it letters. */
  lemma CaseKeepsLetters(w: string)
    requires IsLetters(w)
    ensures forall i :: 0 <= i < |LowerAll(w)| ==> IsAlpha(LowerAll(w)[i])
    ensures forall i :: 0 <= i < |Capitalize(w)| ==> IsAlpha(Capitalize(w)[i])
  {
    assert forall i :: 0 <= i < |w| ==> w[i] in w;
  }

  /** The field name of a numbered line whose description is not empty is
      the camelCase join of its words. */
  lemma NamedByWords(line: string, tag: string)
    requires tag != "" && Description(line, tag) != ""
    ensures FieldName(line, tag) == Success(CamelCase(SplitWhitespace(Description(line, tag))))
  {
    FieldNameIsCamelCase(line, tag);
  }

  /** A numbered tag, one blank and a text without `#` or padding: the tag
      numbers the line and the text is its description. */
  lemma TaggedText(tag: string, w: string)
    requires IsNumberedTag(tag) && w != [] && '#' !in w
    requires !IsSpace(w[0]) && !IsSpace(w[|w| - 1])
    ensures NumberedTag(tag + " " + w) == Some(tag)
    ensures Description(tag + " " + w, tag) == w
  {
    assert tag + " " + w == tag + (" " + w);
    TaggedLine(tag, " " + w);
    StripOneBlank(w);
  }

  /** One word of letters splits into itself and gives itself lower-cased. */
  lemma SingleWord(a: string)
    requires a != [] && IsLetters(a)
    ensures SplitWhitespace(a) == [a]
    ensures CamelCase([a]) == LowerAll(a)
  {
    assert a + "" == a;
    WordThen(a, "");
    CaseKeepsLetters(a);
    KeepLetters(LowerAll(a));
  }

  /** Two words of letters around one blank split into them and give the
      first lower-cased and the second capitalized. */
  lemma TwoWords(a: string, b: string)
    requires a != [] && IsLetters(a) && b != [] && IsLetters(b)
    ensures SplitWhitespace(a + " " + b) == [a, b]
    ensures CamelCase([a, b]) == LowerAll(a) + Capitalize(b)
  {
    assert a + " " + b == a + (" " + b);
    assert b[0] in b;
    WordThen(a, " " + b);
    assert (" " + b)[1..] == b;
    SingleWord(b);
    CaseKeepsLetters(a);
    KeepLetters(LowerAll(a));
    CaseKeepsLetters(b);
    KeepLetters(Capitalize(b));
    assert [a, b][1..] == [b];
  }

  /** A numbered line whose description is one word of letters names the
      field by that word lower-cased. */
  lemma OneWordLine(tag: string, a: string)
    requires IsNumberedTag(tag) && a != [] && IsLetters(a)
    ensures NumberedTag(tag + " " + a) == Some(tag)
    ensures FieldName(tag + " " + a, tag) == Success(LowerAll(a))
  {
    assert a[0] in a && a[|a| - 1] in a;
    TaggedText(tag, a);
    SingleWord(a);
    NamedByWords(tag + " " + a, tag);
  }

  /** A numbered line whose description is two words of letters names the
      field by the first lower-cased and the second capitalized. */
  lemma TwoWordLine(tag: string, a: string, b: string)
    requires IsNumberedTag(tag) && a != [] && IsLetters(a) && b != [] && IsLetters(b)
    ensures NumberedTag(tag + " " + a + " " + b) == Some(tag)
    ensures FieldName(tag + " " + a + " " + b, tag) == Success(LowerAll(a) + Capitalize(b))
  {
    var words := a + " " + b;
    assert tag + " " + a + " " + b == tag + " " + words;
    assert a[0] in a && b[|b| - 1] in b && words[|words| - 1] == b[|b| - 1];
    TaggedText(tag, words);
    TwoWords(a, b);
    NamedByWords(tag + " " + words, tag);
  }

  /** `# 1: Foo Bar` names the field `fooBar`. */
  lemma FooBarLine()
    ensures NumberedTag("# 1:" + " " + "Foo" + " " + "Bar") == Some("# 1:")
    ensures FieldName("# 1:" + " " + "Foo" + " " + "Bar", "# 1:") == Success("fooBar")
  {
    assert LowerAll("Foo") + Capitalize("Bar") == "fooBar" by {
      assert LowerAll("Foo") == "foo" && Capitalize("Bar") == "Bar";
    }
    assert TagWithSpaces("# 1:", 1);
    assert IsLetters("Foo") && IsLetters("Bar");
    TwoWordLine("# 1:", "Foo", "Bar");
  }

  /** `# 2: Baz` names the field `baz`. */
  lemma BazLine()
    ensures NumberedTag("# 2:" + " " + "Baz") == Some("# 2:")
    ensures FieldName("# 2:" + " " + "Baz", "# 2:") == Success("baz")
  {
    assert LowerAll("Baz") == "baz";
    assert TagWithSpaces("# 2:", 1);
    assert IsLetters("Baz");
    OneWordLine("# 2:", "Baz");
  }

  /** After `# 1: Foo Bar` has given `fooBar`, `# 2: Baz` appends `baz`. */
  lemma NumberedHeaderTail(block: seq<string>)
    requires block == ["# 1:" + " " + "Foo" + " " + "Bar", "# 2:" + " " + "Baz"]
    ensures DeriveFrom(block[1..], ["fooBar"]) == Success(["fooBar", "baz"])
  {
    BazLine();
    assert block[1][1] != "#format"[1];
    DeriveFromStep(block, 1, ["fooBar"]);
    assert block[2..] == [] && ["fooBar"] + ["baz"] == ["fooBar", "baz"];
  }

  /** The numbered lines `# 1: Foo Bar` and `# 2: Baz` give `fooBar` and `baz`. */
  lemma NumberedHeader()
    ensures DeriveHeader(["# 1:" + " " + "Foo" + " " + "Bar", "# 2:" + " " + "Baz"]) == Success(["fooBar", "baz"])
  {
    var block := ["# 1:" + " " + "Foo" + " " + "Bar", "# 2:" + " " + "Baz"];
    NumberedHeaderTail(block);
    FooBarLine();
    assert block[0][1] != "#format"[1];
    assert block[0..] == block;
    DeriveFromStep(block, 0, []);
    assert [] + ["fooBar"] == ["fooBar"];
  }

  /** Two space-free tokens joined by one space split back into them. */
  lemma SplitPair(a: string, b: string)
    requires ' ' !in a && ' ' !in b
    ensures SplitOn(a + " " + b, ' ') == [a, b]
  {
    SplitJoin([a, b], ' ');
    assert JoinWith([a, b], ' ') == a + " " + b;
  }

  /** A numeric token and a word coerce to a number and a string. */
  lemma CoercePair(id: string, name: string)
    requires id != [] && AllDigits(id)
    requires IsLetters(name)
    requires name != NoneToken && !IsSpecial(WithoutSign(FloatTrim(name)))
    ensures CoerceAll([id, name]) == [Number(id), Str(name)]
  {
    DigitsAreFloat(id);
    assert forall i :: 0 <= i < |name| ==> name[i] in name;
    CoerceDigitless(name);
  }

  /** The record of the data line `<id> <name>` under the names `id`, `name`,
      for a numeric `id` and a word `name`. */
  lemma PairRecord(id: string, name: string)
    requires id != [] && AllDigits(id)
    requires name != [] && IsLetters(name)
    requires name != NoneToken && !IsSpecial(WithoutSign(FloatTrim(name)))
    ensures RecordOf(["id", "name"], id + " " + name) == map["id" := Number(id), "name" := Str(name)]
  {
    assert SplitOn(id + " " + name, ' ') == [id, name] by {
      assert ' ' !in id && ' ' !in name;
      SplitPair(id, name);
    }
    assert CoerceAll([id, name]) == [Number(id), Str(name)] by {
      CoercePair(id, name);
    }
    ZipPair(Number(id), Str(name));
  }

  /** Two names zipped with two values. */
  lemma ZipPair(a: Value, b: Value)
    ensures Zip(["id", "name"], [a, b]) == map["id" := a, "name" := b]
  {
    assert ["id", "name"][1..] == ["name"] && [a, b][1..] == [b];
  }

  /** The line `#format id name`. */
  const FormatIdName: string := "#format" + " " + "id" + " " + "name"

  const SmallLines: seq<string> := [FormatIdName, "1" + " " + "Alice", "2" + " " + "Bob"]

  /** The header block of the small file is its `#format` line alone. */
  lemma SmallFileBlock()
    ensures HeaderBlock(SmallLines) == [FormatIdName]
  {
    StripUnpadded(SmallLines[0]);
    StripUnpadded(SmallLines[1]);
    assert '#' !in SmallLines[1];
    assert SmallLines[1..][0] == SmallLines[1];
    assert HeaderBlock(SmallLines[1..]) == [];
  }

  /** `#format id name` is a format line naming `id` and `name`. */
  lemma SmallFormatLine()
    ensures IsFormatLine(FormatIdName)
    ensures FormatFields(FormatIdName) == ["id", "name"]
  {
    var names := ["id", "name"];
    assert "#format " + JoinWith(names, ' ') == FormatIdName by {
      assert names[1..] == ["name"];
      assert JoinWith(names[1..], ' ') == "name";
      assert JoinWith(names, ' ') == "id" + " " + "name";
    }
    FormatFieldsOfJoin(names);
    assert FormatIdName[..|"#format"|] == "#format";
  }

  /** Its field names are `id` and `name`. */
  lemma SmallFileHeader()
    ensures HeaderOf(SmallLines) == Success(["id", "name"])
  {
    SmallFileBlock();
    SmallFormatLine();
  }

  /** `Alice` and `Bob` are words that are not numbers. */
  lemma NamesAreWords()
    ensures IsLetters("Alice") && IsLetters("Bob")
    ensures !IsSpecial(WithoutSign(FloatTrim("Alice"))) && !IsSpecial(WithoutSign(FloatTrim("Bob")))
  {
    FloatTrimUnpadded("Alice");
    FloatTrimUnpadded("Bob");
    assert WithoutSign("Alice") == "Alice" && WithoutSign("Bob") == "Bob";
    assert LowerAll("Alice") == "alice" && LowerAll("Bob") == "bob";
  }

  /** The data line `<id> <name>` is its own strip and yields the record
      pairing `id` with a number and `name` with a string. */
  lemma DataLinePair(id: string, name: string)
    requires id != [] && AllDigits(id)
    requires name != [] && IsLetters(name)
    requires name != NoneToken && !IsSpecial(WithoutSign(FloatTrim(name)))
    ensures Strip(id + " " + name) == id + " " + name && IsDataLine(id + " " + name)
    ensures RecordOf(["id", "name"], id + " " + name) == map["id" := Number(id), "name" := Str(name)]
  {
    var t := id + " " + name;
    assert Strip(t) == t by {
      assert t[0] == id[0] && t[|t| - 1] == name[|name| - 1];
      assert name[|name| - 1] in name;
      StripUnpadded(t);
    }
    assert '#' !in t by {
      assert forall i :: 0 <= i < |id| ==> t[i] == id[i];
      assert forall i :: |id| < i < |t| ==> t[i] == name[i - |id| - 1] && name[i - |id| - 1] in name;
    }
    PairRecord(id, name);
  }

  /** Its `#format` line yields no record. */
  lemma SmallFormatLineNoRecord()
    ensures LineRecords(["id", "name"], SmallLines[0]) == []
  {
    assert SmallLines[0][0] == '#';
    StripUnpadded(SmallLines[0]);
  }

  /** Each of its data lines yields one record. */
  lemma SmallDataLineRecords()
    ensures LineRecords(["id", "name"], SmallLines[1]) == [map["id" := Number("1"), "name" := Str("Alice")]]
    ensures LineRecords(["id", "name"], SmallLines[2]) == [map["id" := Number("2"), "name" := Str("Bob")]]
  {
    NamesAreWords();
    assert AllDigits("1") && "Alice" != NoneToken by {
      assert "Alice"[0] != NoneToken[0];
    }
    assert AllDigits("2") && "Bob" != NoneToken by {
      assert "Bob"[0] != NoneToken[0];
    }
    DataLinePair("1", "Alice");
    DataLinePair("2", "Bob");
  }

  /** Its records, one per data line. */
  lemma SmallFileRecords()
    ensures Records(["id", "name"], SmallLines) ==
      [map["id" := Number("1"), "name" := Str("Alice")], map["id" := Number("2"), "name" := Str("Bob")]]
  {
    var header, lines := ["id", "name"], SmallLines;
    SmallFormatLineNoRecord();
    SmallDataLineRecords();
    assert Records(header, lines[2..]) == [LineRecords(header, lines[2])[0]] by {
      assert lines[2..][0] == lines[2] && lines[2..][1..] == [];
    }
    assert Records(header, lines[1..]) == LineRecords(header, lines[1]) + Records(header, lines[2..]) by {
      assert lines[1..][0] == lines[1] && lines[1..][1..] == lines[2..];
    }
  }

  /** The file `#format id name`, `1 Alice`, `2 Bob` becomes two records in
      which `id` holds a number and `name` a string. */
  lemma SmallFile()
    ensures Convert("run.dat", true, SmallLines) ==
      Written("run.dat.json", [map["id" := Number("1"), "name" := Str("Alice")],
                               map["id" := Number("2"), "name" := Str("Bob")]])
  {
    assert IsConvertible("run.dat", true) by {
      assert 'j' in ".json" && 'j' !in "run.dat";
      MissingCharNotContained("run.dat", ".json", 'j');
    }
    assert JsonName("run.dat") == "run.dat.json";
    SmallFileHeader();
    SmallFileRecords();
  }
}
