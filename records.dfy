/** Record derivation, `Converter._generateIntermediate` (code/avida-to-json.py,
    lines 147-181), as functions over the file's lines: every stripped line
    that is non-empty and has no `#` is split on single spaces, each token is
    coerced to null, a number or a string, and the values are paired with the
    field names position by position. */
module Rows {
  import opened Text
  import opened Floats
  import opened Header

  /** The JSON scalar a token becomes. A `Number` keeps the literal that
      `float()` accepted; the double it denotes is not computed. */
  datatype Value = Null | Number(literal: string) | Str(text: string)

  /** One record: field name to value. */
  type Record = map<string, Value>

  /** The token the converter reads as a missing value. */
  const NoneToken: string := "(none)"

  // -------------------------------------------------------------- coercion

  /** Lines 171-179: the value one token becomes. */
  function Coerce(token: string): Value {
    if token == NoneToken then Null
    else if IsFloatText(token) then Number(token)
    else Str(token)
  }

  /** The token a value came from. */
  function Render(v: Value): string {
    match v
    case Null => NoneToken
    case Number(literal) => literal
    case Str(text) => text
  }

  /** Only `(none)` becomes null, a token becomes a number exactly when
      `float()` accepts it, and a string value is its token unchanged. In the
      model every token can be read back from its value; for a number that
      is a property of the model's representation only, since `float()`
      keeps just the double (`"1"` and `"1.0"` give the same one). */
  lemma CoerceRoundTrip(token: string)
    ensures Render(Coerce(token)) == token
    ensures Coerce(token).Null? <==> token == NoneToken
    ensures Coerce(token).Number? <==> token != NoneToken && IsFloatText(token)
  {
  }

  /** Digits around a point, such as `3.14`, become a number. */
  lemma CoercePointedDigits(a: string, b: string)
    requires a != [] && AllDigits(a) && b != [] && AllDigits(b)
    ensures Coerce(a + "." + b) == Number(a + "." + b)
  {
    PointedDigitsAreFloat(a, b);
    assert (a + "." + b)[|a|] == '.';
  }

  /** A token with no digit, other than `(none)` and the spellings of
      infinity and not-a-number, such as `abc`, stays the same string. */
  lemma CoerceDigitless(token: string)
    requires token != NoneToken
    requires forall i :: 0 <= i < |token| ==> !IsDigit(token[i])
    requires !IsSpecial(WithoutSign(FloatTrim(token)))
    ensures Coerce(token) == Str(token)
  {
    if IsFloatText(token) {
      FloatTextHasDigit(token);
    }
  }

  /** `"1"` followed by an information separator (U+001C to U+001F) stays a
      string: `float()` does not trim those, though `strip()` does. */
  lemma CoerceKeepsSeparator(c: char)
    requires '\U{1C}' <= c <= '\U{1F}'
    ensures Coerce("1" + [c]) == Str("1" + [c])
  {
    SeparatorIsNotTrimmed(c);
  }

  /** Each token coerced, in order (built from the last token back, the way
      the loop of lines 170-179 appends). */
  function CoerceAll(tokens: seq<string>): (vs: seq<Value>)
    ensures |vs| == |tokens|
    ensures forall i :: 0 <= i < |tokens| ==> vs[i] == Coerce(tokens[i])
  {
    if tokens == [] then [] else CoerceAll(tokens[..|tokens| - 1]) + [Coerce(tokens[|tokens| - 1])]
  }

  /** Coercing one more token appends its value. */
  lemma {:induction false} CoerceAllExtend(tokens: seq<string>, k: nat)
    requires k < |tokens|
    ensures CoerceAll(tokens[..k + 1]) == CoerceAll(tokens[..k]) + [Coerce(tokens[k])]
  {
    assert tokens[..k + 1][..k] == tokens[..k];
  }

  // ------------------------------------------------------------ dict(zip())

  function Min(a: nat, b: nat): nat {
    if a <= b then a else b
  }

  /** `dict(zip(keys, values))` continued from `acc`: pairs are inserted left
      to right until either list runs out, a later duplicate key overwriting
      an earlier one. */
  function ZipInto(acc: Record, keys: seq<string>, values: seq<Value>): Record
    decreases |keys|
  {
    if keys == [] || values == [] then acc
    else ZipInto(acc[keys[0] := values[0]], keys[1..], values[1..])
  }

  /** Line 181: `dict(zip(keys, values))`. */
  function Zip(keys: seq<string>, values: seq<Value>): Record {
    ZipInto(map[], keys, values)
  }

  /** Position `i` holds the last occurrence of its key among the first `n`. */
  predicate LastBefore(keys: seq<string>, n: nat, i: nat)
    requires i < n <= |keys|
  {
    forall j :: i < j < n ==> keys[j] != keys[i]
  }

  /** The keys `ZipInto` builds: those of `acc` and the first `n` keys, `n`
      being the shorter length. */
  lemma {:induction false} ZipIntoKeys(acc: Record, keys: seq<string>, values: seq<Value>)
    ensures ZipInto(acc, keys, values).Keys == acc.Keys + (set i | 0 <= i < Min(|keys|, |values|) :: keys[i])
    decreases |keys|
  {
    var n := Min(|keys|, |values|);
    if n > 0 {
      var ks := keys[1..];
      ZipIntoKeys(acc[keys[0] := values[0]], ks, values[1..]);
      var all := set i | 0 <= i < n :: keys[i];
      var later := set i | 0 <= i < n - 1 :: ks[i];
      assert all == {keys[0]} + later by {
        forall k | k in all
          ensures k in {keys[0]} + later
        {
          var i :| 0 <= i < n && keys[i] == k;
          if i > 0 {
            assert ks[i - 1] == k;
          }
        }
        forall k | k in later
          ensures k in all
        {
          var i :| 0 <= i < n - 1 && ks[i] == k;
          assert keys[i + 1] == k;
        }
      }
    }
  }

  /** Each of the first `n` keys holds the value paired with its last
      occurrence among them. */
  lemma {:induction false} ZipIntoLast(acc: Record, keys: seq<string>, values: seq<Value>)
    ensures var n := Min(|keys|, |values|);
      forall i :: 0 <= i < n && LastBefore(keys, n, i) ==>
        keys[i] in ZipInto(acc, keys, values) && ZipInto(acc, keys, values)[keys[i]] == values[i]
    decreases |keys|
  {
    var n := Min(|keys|, |values|);
    if n > 0 {
      var acc', ks, vs := acc[keys[0] := values[0]], keys[1..], values[1..];
      ZipIntoLast(acc', ks, vs);
      ZipIntoKeeps(acc', ks, vs);
      forall i | 0 <= i < n && LastBefore(keys, n, i)
        ensures keys[i] in ZipInto(acc, keys, values) && ZipInto(acc, keys, values)[keys[i]] == values[i]
      {
        if i > 0 {
          assert LastBefore(ks, n - 1, i - 1);
        } else {
          assert forall j :: 0 <= j < n - 1 ==> ks[j] != keys[0] by {
            forall j | 0 <= j < n - 1
              ensures ks[j] != keys[0]
            {
              assert keys[j + 1] == ks[j];
            }
          }
        }
      }
    }
  }

  /** A key of `acc` that is none of the first `n` keys keeps its value. */
  lemma {:induction false} ZipIntoKeeps(acc: Record, keys: seq<string>, values: seq<Value>)
    ensures var n := Min(|keys|, |values|);
      forall k :: k in acc && (forall i :: 0 <= i < n ==> keys[i] != k) ==>
        k in ZipInto(acc, keys, values) && ZipInto(acc, keys, values)[k] == acc[k]
    decreases |keys|
  {
    var n := Min(|keys|, |values|);
    if n > 0 {
      var acc', ks, vs := acc[keys[0] := values[0]], keys[1..], values[1..];
      ZipIntoKeeps(acc', ks, vs);
      forall k | k in acc && (forall i :: 0 <= i < n ==> keys[i] != k)
        ensures k in ZipInto(acc, keys, values) && ZipInto(acc, keys, values)[k] == acc[k]
      {
        assert keys[0] != k;
        assert forall i :: 0 <= i < n - 1 ==> ks[i] == keys[i + 1];
      }
    }
  }

  /** A row's record: its keys are exactly the first `n` field names, `n`
      being the smaller of the name count and the token count, and each
      holds the value paired with its last occurrence. */
  lemma ZipSpec(keys: seq<string>, values: seq<Value>)
    ensures var n := Min(|keys|, |values|);
      && Zip(keys, values).Keys == (set i | 0 <= i < n :: keys[i])
      && (forall i :: 0 <= i < n && LastBefore(keys, n, i) ==> Zip(keys, values)[keys[i]] == values[i])
  {
    ZipIntoKeys(map[], keys, values);
    ZipIntoLast(map[], keys, values);
  }

  predicate Distinct(keys: seq<string>) {
    forall i, j :: 0 <= i < j < |keys| ==> keys[i] != keys[j]
  }

  /** Distinct keys give as many set members as positions. */
  lemma {:induction false} DistinctCount(keys: seq<string>, n: nat)
    requires n <= |keys| && Distinct(keys[..n])
    ensures |set i | 0 <= i < n :: keys[i]| == n
  {
    if n > 0 {
      DistinctCount(keys, n - 1);
      var prefix := set i | 0 <= i < n - 1 :: keys[i];
      assert (set i | 0 <= i < n :: keys[i]) == prefix + {keys[n - 1]};
      assert keys[..n][n - 1] == keys[n - 1];
      assert keys[n - 1] !in prefix by {
        forall i | 0 <= i < n - 1
          ensures keys[i] != keys[n - 1]
        {
          assert keys[..n][i] == keys[i];
        }
      }
    }
  }

  /** A row with no more tokens than there are (distinct) field names gives
      a record with exactly one key per token: the leading field names, each
      paired with the token at its position. No name is paired with null for
      a missing token. */
  lemma ShortRow(keys: seq<string>, values: seq<Value>)
    requires |values| <= |keys| && Distinct(keys[..|values|])
    ensures |Zip(keys, values)| == |values|
    ensures Zip(keys, values).Keys == set i | 0 <= i < |values| :: keys[i]
    ensures forall i :: 0 <= i < |values| ==> Zip(keys, values)[keys[i]] == values[i]
  {
    var n := |values|;
    ZipSpec(keys, values);
    DistinctCount(keys, n);
    forall i | 0 <= i < n
      ensures LastBefore(keys, n, i)
    {
      forall j | i < j < n
        ensures keys[j] != keys[i]
      {
        assert keys[..n][i] == keys[i] && keys[..n][j] == keys[j];
      }
    }
  }

  // --------------------------------------------------------------- records

  /** Lines 158-162: a stripped line that yields a record is non-empty and
      has no `#` anywhere. */
  predicate IsDataLine(t: string) {
    t != "" && '#' !in t
  }

  /** Lines 166-181: the record of a stripped data line. */
  function RecordOf(header: seq<string>, t: string): Record {
    Zip(header, CoerceAll(SplitOn(t, ' ')))
  }

  /** The records one line yields: one if its strip is a data line, none
      otherwise. */
  function LineRecords(header: seq<string>, line: string): (rs: seq<Record>)
    ensures |rs| <= 1
  {
    var t := Strip(line);
    if IsDataLine(t) then [RecordOf(header, t)] else []
  }

  /** The records of all lines, in line order. */
  function Records(header: seq<string>, lines: seq<string>): (rs: seq<Record>)
    ensures |rs| <= |lines|
  {
    if lines == [] then [] else LineRecords(header, lines[0]) + Records(header, lines[1..])
  }

  /** The stripped data lines, in order. */
  function DataLines(lines: seq<string>): (ts: seq<string>)
    ensures forall i :: 0 <= i < |ts| ==> IsDataLine(ts[i])
  {
    if lines == [] then []
    else
      var t := Strip(lines[0]);
      (if IsDataLine(t) then [t] else []) + DataLines(lines[1..])
  }

  /** Exactly one record per data line, in the order of the lines. */
  lemma {:induction false} OneRecordPerDataLine(header: seq<string>, lines: seq<string>)
    ensures |Records(header, lines)| == |DataLines(lines)|
    ensures forall i :: 0 <= i < |DataLines(lines)| ==>
      Records(header, lines)[i] == RecordOf(header, DataLines(lines)[i])
  {
    if lines != [] {
      OneRecordPerDataLine(header, lines[1..]);
      OneRecordStep(header, lines);
    }
    assert RecordsOfLines(header, Records(header, lines), DataLines(lines));
  }

  /** `rs` holds the record of each of `ts`, in order. */
  predicate RecordsOfLines(header: seq<string>, rs: seq<Record>, ts: seq<string>) {
    |rs| == |ts| && forall i :: 0 <= i < |rs| ==> rs[i] == RecordOf(header, ts[i])
  }

  /** The step of `OneRecordPerDataLine`: one more line in front. */
  lemma {:induction false} OneRecordStep(header: seq<string>, lines: seq<string>)
    requires lines != []
    requires RecordsOfLines(header, Records(header, lines[1..]), DataLines(lines[1..]))
    ensures RecordsOfLines(header, Records(header, lines), DataLines(lines))
  {
    var t := Strip(lines[0]);
    var front := LineRecords(header, lines[0]);
    var frontLines := if IsDataLine(t) then [t] else [];
    assert Records(header, lines) == front + Records(header, lines[1..]);
    assert DataLines(lines) == frontLines + DataLines(lines[1..]);
    RecordsOfLinesAppend(header, front, frontLines, Records(header, lines[1..]), DataLines(lines[1..]));
  }

  /** Paired records and lines concatenate. */
  lemma RecordsOfLinesAppend(header: seq<string>, rs: seq<Record>, ts: seq<string>, rs': seq<Record>, ts': seq<string>)
    requires RecordsOfLines(header, rs, ts) && RecordsOfLines(header, rs', ts')
    ensures RecordsOfLines(header, rs + rs', ts + ts')
  {
    forall i | |rs| <= i < |rs| + |rs'|
      ensures (rs + rs')[i] == RecordOf(header, (ts + ts')[i])
    {
      assert (rs + rs')[i] == rs'[i - |rs|] && (ts + ts')[i] == ts'[i - |ts|];
    }
  }

  /** The records of the first `n + 1` lines: those of the first `n`, then
      the record of line `n` if it is a data line. */
  lemma {:induction false} RecordsExtend(header: seq<string>, lines: seq<string>, n: nat)
    requires n < |lines|
    ensures Records(header, lines[..n + 1]) == Records(header, lines[..n]) + LineRecords(header, lines[n])
  {
    assert lines[..n + 1] == lines[..n] + [lines[n]];
    RecordsAppend(header, lines[..n], [lines[n]]);
  }

  /** Records of consecutive stretches of lines concatenate. */
  lemma {:induction false} RecordsAppend(header: seq<string>, a: seq<string>, b: seq<string>)
    ensures Records(header, a + b) == Records(header, a) + Records(header, b)
  {
    if a == [] {
      assert a + b == b;
    } else {
      var first := LineRecords(header, a[0]);
      assert (a + b)[0] == a[0] && (a + b)[1..] == a[1..] + b;
      assert Records(header, a + b) == first + Records(header, a[1..] + b);
      RecordsAppend(header, a[1..], b);
      assert first + (Records(header, a[1..]) + Records(header, b)) == (first + Records(header, a[1..])) + Records(header, b);
    }
  }

  /** Lines that are not data lines yield no record. */
  lemma {:induction false} NoDataNoRecords(header: seq<string>, lines: seq<string>)
    requires forall i :: 0 <= i < |lines| ==> !IsDataLine(Strip(lines[i]))
    ensures Records(header, lines) == []
  {
    if lines != [] {
      NoDataNoRecords(header, lines[1..]);
    }
  }

  /** The header block yields no record: the records of a file are those of
      the lines after its header block. */
  lemma HeaderYieldsNoRecords(header: seq<string>, lines: seq<string>)
    ensures Records(header, lines) == Records(header, lines[|HeaderBlock(lines)|..])
  {
    var k := |HeaderBlock(lines)|;
    HeaderBlockSpec(lines);
    assert lines == lines[..k] + lines[k..];
    RecordsAppend(header, lines[..k], lines[k..]);
    NoDataNoRecords(header, lines[..k]);
  }
}
