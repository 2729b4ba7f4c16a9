/** The `Converter` class of code/avida-to-json.py (lines 42-194): one object
    per input file, holding whether the file may be converted, the output
    file's name, the field names and the records. The file system is not
    modelled: whether the file exists is given, its lines are given (both
    reading passes see the same lines), and writing the output is the
    `Written` outcome carrying the output name and the records. */
module AvidaToJson {
  import opened Wrappers
  import opened Text
  import opened Header
  import opened Rows

  /** Line 56: the output file is named after the input with `.json` appended. */
  function JsonName(fileName: string): string {
    fileName + ".json"
  }

  /** Lines 58-76: a file is converted when it exists and its name does not
      contain `.json` anywhere. */
  predicate IsConvertible(fileName: string, fileExists: bool) {
    fileExists && !ContainsText(fileName, ".json")
  }

  /** An output file is never converted again, whether or not it exists. */
  lemma OutputNotConvertible(fileName: string, fileExists: bool)
    ensures !IsConvertible(JsonName(fileName), fileExists)
  {
    ContainsSuffix(fileName, ".json");
  }

  /** What a step of the converter reports: it ran, it returned -1 because
      the file is not valid, or it raised. */
  datatype Status = Done | Refused | Raised(error: HeaderError)

  /** The effect of converting one file: skipped with a warning, ended by an
      exception that escapes the converter, or written. */
  datatype Outcome = Skipped | Aborted(error: HeaderError) | Written(path: string, records: seq<Record>)

  /** What converting one file does, from its name, whether it exists, and
      its lines. */
  function Convert(fileName: string, fileExists: bool, fileLines: seq<string>): Outcome {
    if !IsConvertible(fileName, fileExists) then Skipped
    else
      match HeaderOf(fileLines)
      case Failure(e) => Aborted(e)
      case Success(header) => Written(JsonName(fileName), Records(header, fileLines))
  }

  /** Converting a file's own output is a no-op: it is skipped. */
  lemma ConvertingOutputSkips(fileName: string, fileExists: bool, fileLines: seq<string>)
    ensures Convert(JsonName(fileName), fileExists, fileLines) == Skipped
  {
    OutputNotConvertible(fileName, fileExists);
  }

  /** A written conversion goes to `<name>.json` and holds one record per
      data line, in line order. */
  lemma WrittenOutput(fileName: string, fileExists: bool, fileLines: seq<string>)
    requires Convert(fileName, fileExists, fileLines).Written?
    ensures Convert(fileName, fileExists, fileLines).path == fileName + ".json"
    ensures var records := Convert(fileName, fileExists, fileLines).records;
      && |records| == |DataLines(fileLines)|
      && forall i :: 0 <= i < |records| ==>
           records[i] == RecordOf(HeaderOf(fileLines).value, DataLines(fileLines)[i])
  {
    OneRecordPerDataLine(HeaderOf(fileLines).value, fileLines);
  }

  /** Lines 100-106: read lines, each stripped, while they are non-empty
      and hold a `#`; the end of the file reads as the empty text. */
  method ReadHeaderBlock(fileLines: seq<string>) returns (firstLines: seq<string>)
    ensures firstLines == HeaderBlock(fileLines)
  {
    firstLines := [];
    var i := 0;
    while true
      invariant 0 <= i <= |fileLines|
      invariant firstLines + HeaderBlock(fileLines[i..]) == HeaderBlock(fileLines)
      decreases |fileLines| - i
    {
      // `readline` gives the empty text at the end of the file
      var nextLine := if i < |fileLines| then Strip(fileLines[i]) else "";
      if |nextLine| == 0 || '#' !in nextLine {
        break;
      }
      HeaderBlockFrom(fileLines, i, firstLines);
      firstLines := firstLines + [nextLine];
      i := i + 1;
    }
    HeaderBlockEnds(fileLines, i);
  }

  /** Lines 109-142: walk the header block; a `#format` line gives the field
      names and ends the walk, a numbered line appends the name derived from
      its description, and an empty description raises. */
  method DeriveNames(firstLines: seq<string>) returns (names: Result<seq<string>, HeaderError>)
    ensures names == DeriveHeader(firstLines)
  {
    var header: seq<string> := [];
    var j := 0;
    while j < |firstLines|
      invariant 0 <= j <= |firstLines|
      invariant DeriveFrom(firstLines[j..], header) == DeriveHeader(firstLines)
    {
      var line := firstLines[j];
      DeriveFromStep(firstLines, j, header);
      if IsFormatLine(line) {
        return Success(SplitOn(line, ' ')[1..]);
      }
      var tag := NumberedTag(line);
      if tag.Some? {
        var fieldHeader := FieldName(line, tag.value);
        if fieldHeader.Failure? {
          return Failure(fieldHeader.error);
        }
        header := header + [fieldHeader.value];
      }
      j := j + 1;
    }
    return Success(header);
  }

  /** Lines 164-179: each token coerced, in order. */
  method ParseFields(fields: seq<string>) returns (parsedFields: seq<Value>)
    ensures parsedFields == CoerceAll(fields)
  {
    parsedFields := [];
    for k := 0 to |fields|
      invariant parsedFields == CoerceAll(fields[..k])
    {
      CoerceAllExtend(fields, k);
      parsedFields := parsedFields + [Coerce(fields[k])];
    }
    assert fields[..|fields|] == fields;
  }

  /** Lines 154-181: one record per stripped line that is non-empty and has
      no `#`, in line order. */
  method ReadRecords(header: seq<string>, fileLines: seq<string>) returns (intermediate: seq<Record>)
    ensures intermediate == Records(header, fileLines)
  {
    intermediate := [];
    for n := 0 to |fileLines|
      invariant intermediate == Records(header, fileLines[..n])
    {
      RecordsExtend(header, fileLines, n);
      var line := Strip(fileLines[n]);
      if |line| == 0 || '#' in line {
        continue;
      }
      var parsedFields := ParseFields(SplitOn(line, ' '));
      intermediate := intermediate + [Zip(header, parsedFields)];
    }
    assert fileLines[..|fileLines|] == fileLines;
  }

  class Converter {
    const fileName: string
    /** `os.path.isfile(fileName)` when the file is checked. */
    const fileExists: bool
    /** The file's lines, as each of the two `open` calls reads them. */
    const fileLines: seq<string>

    var valid: bool
    var jsonName: string
    var header: seq<string>
    var intermediate: seq<Record>
    /** The exception that escaped `__init__`, if one did. */
    var exception: Option<HeaderError>

    /** The validity flag and the output name are set, and the field names
        are the ones derived from the file whenever it is valid. */
    ghost predicate HeaderReady()
      reads this
    {
      && valid == IsConvertible(fileName, fileExists)
      && jsonName == JsonName(fileName)
      && (valid ==> HeaderOf(fileLines) == Success(header))
    }

    /** The state after a successful `__init__`: besides, the records are
        the ones derived from the file whenever it is valid. */
    ghost predicate Valid()
      reads this
    {
      HeaderReady() && (valid ==> intermediate == Records(header, fileLines))
    }

    /** Lines 44-53: check the file, name the output, derive the header and
        then the records. An exception raised by the header derivation
        escapes, and the records are then not derived. */
    constructor (fileName: string, fileExists: bool, fileLines: seq<string>)
      ensures this.fileName == fileName && this.fileExists == fileExists && this.fileLines == fileLines
      ensures valid == IsConvertible(fileName, fileExists) && jsonName == JsonName(fileName)
      ensures exception == (if valid && HeaderOf(fileLines).Failure? then Some(HeaderOf(fileLines).error) else None)
      ensures exception.None? ==> Valid()
    {
      this.fileName := fileName;
      this.fileExists := fileExists;
      this.fileLines := fileLines;
      valid := false;
      jsonName := "";
      header := [];
      intermediate := [];
      exception := None;
      new;
      CheckValidFile();
      SetJsonName();
      var status := GenerateHeader();
      if status.Raised? {
        exception := Some(status.error);
      } else {
        status := GenerateIntermediate();
      }
    }

    /** Line 56. */
    method SetJsonName()
      modifies this`jsonName
      ensures jsonName == JsonName(fileName)
    {
      jsonName := fileName + ".json";
    }

    /** Lines 58-76: a missing file, then a name containing `.json`, makes
        the converter invalid. */
    method CheckValidFile()
      modifies this`valid
      ensures valid == IsConvertible(fileName, fileExists)
    {
      if !fileExists {
        valid := false;
      } else if ContainsText(fileName, ".json") {
        valid := false;
      } else {
        valid := true;
      }
    }

    /** Lines 78-145: on a valid file, read the header block, then derive
        the field names from it; on an invalid one, return -1 and change
        nothing. */
    method GenerateHeader() returns (status: Status)
      modifies this`header
      ensures !valid ==> status == Refused && header == old(header)
      ensures valid && HeaderOf(fileLines).Success? ==> status == Done && header == HeaderOf(fileLines).value
      ensures valid && HeaderOf(fileLines).Failure? ==> status == Raised(HeaderOf(fileLines).error)
    {
      if !valid {
        return Refused;
      }
      var firstLines := ReadHeaderBlock(fileLines);
      var derived := DeriveNames(firstLines);
      if derived.Failure? {
        return Raised(derived.error);
      }
      header := derived.value;
      return Done;
    }

    /** Lines 147-181: on a valid file, derive one record per data line; on
        an invalid one, return -1 and change nothing. A header that came out
        empty is derived once more (line 152), with the same result. */
    method GenerateIntermediate() returns (status: Status)
      requires HeaderReady()
      modifies this`header, this`intermediate
      ensures Valid() && header == old(header)
      ensures status == (if valid then Done else Refused)
      ensures !valid ==> intermediate == old(intermediate)
    {
      if !valid {
        return Refused;
      }
      if header == [] {
        var again := GenerateHeader();
      }
      intermediate := ReadRecords(header, fileLines);
      return Done;
    }

    /** Lines 183-194: on a valid file, the output named `jsonName` holding
        the records (derived once more if there were none); on an invalid
        one, -1 and nothing written. */
    method WriteJson() returns (outcome: Outcome)
      requires Valid()
      modifies this`header, this`intermediate
      ensures Valid() && header == old(header) && intermediate == old(intermediate)
      ensures outcome == if valid then Written(jsonName, intermediate) else Skipped
    {
      if !valid {
        return Skipped;
      }
      if intermediate == [] {
        var again := GenerateIntermediate();
      }
      return Written(jsonName, intermediate);
    }
  }

  /** Lines 199-200 for one file: build a converter, then write its JSON.
      The outcome is the one `Convert` specifies. */
  method ConvertFile(fileName: string, fileExists: bool, fileLines: seq<string>) returns (outcome: Outcome)
    ensures outcome == Convert(fileName, fileExists, fileLines)
  {
    var converter := new Converter(fileName, fileExists, fileLines);
    if converter.exception.Some? {
      return Aborted(converter.exception.value);
    }
    outcome := converter.WriteJson();
  }
}
