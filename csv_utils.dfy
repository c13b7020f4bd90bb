/** The CSV normaliser of the dashboard (src/utils/csvUtils.ts). Each
    report is a published spreadsheet export; a parser receives the text of
    the export and turns it into a record. The network request that
    fetches the text is not part of the model: every parser here takes the
    text as its argument.

    The single-row parsers build an untyped object field by field and cast
    it to the report's interface without checking it, so a record is a map
    from header name to cell, and a field whose header is missing is simply
    absent. The art-event parser assembles typed records. */
module CsvUtils {
  import opened JsString
  import opened JsNumber

  /** A stored field: a JavaScript number or a string. */
  datatype Cell = Number(n: Num) | Text(s: string)

  type Record = map<string, Cell>

  /** The four reports; each has its own coercion rules. */
  datatype Report = Movie | Health | Art | House

  function Min(a: nat, b: nat): nat
  {
    if a <= b then a else b
  }

  // ---------------------------------------------------------------------
  // Cell cleaning and number parsing

  /** `value.trim().replace(/"/g, '')`. */
  function Clean(value: string): string
  {
    RemoveQuotes(Trim(value))
  }

  /** `parseNumericValue(value, isInt)`: clean the cell, then `parseInt`
      in base 10 or `parseFloat`; NaN when nothing can be read. */
  function ParseNumericValue(value: string, isInt: bool): (r: Num)
    ensures isInt && r.Val? ==> r.v == r.v.Floor as real
  {
    var cleaned := Clean(value);
    if isInt then ParseInt(cleaned, 10) else ParseFloat(cleaned)
  }

  /** `parseIntegerValue(value, defaultValue)`: clean the cell, then
      `parseInt` without a radix; `defaultValue` when that gives NaN. */
  function ParseIntegerValue(value: string, defaultValue: Num): (r: Num)
    ensures r.NaN? ==> defaultValue.NaN?
    ensures r.Val? && r != defaultValue ==> r.v == r.v.Floor as real
  {
    var parsed := ParseInt(Clean(value), 0);
    if parsed.NaN? then defaultValue else parsed
  }

  /** The decimal form of an integer is left alone by cleaning. */
  lemma CleanIntToString(n: int)
    ensures Clean(IntToString(n)) == IntToString(n)
  {
    IntToStringPlain(n);
    CleanPadded(IntToString(n));
  }

  /** Both parsers return the integer that the cleaned cell starts with:
      base-10 parsing when the cell continues with anything but a digit,
      radix-less parsing unless the integer 0 is followed by `x`. */
  lemma ParseCellIntegerPrefix(value: string, n: int, rest: string, defaultValue: Num)
    requires Clean(value) == IntToString(n) + rest
    requires rest == [] || !IsDecimalDigit(rest[0])
    ensures ParseNumericValue(value, true) == Val(n as real)
    ensures (n != 0 || rest == [] || (rest[0] != 'x' && rest[0] != 'X')) ==>
              ParseIntegerValue(value, defaultValue) == Val(n as real)
  {
    ParseIntDecimalPrefix(n, rest);
    if n != 0 || rest == [] || (rest[0] != 'x' && rest[0] != 'X') {
      ParseIntNoRadixPrefix(n, rest);
    }
  }

  /** Both parsers return the integer that the cleaned cell starts with,
      in whatever form it is written: after white space (left inside
      quotes, which cleaning removes after trimming), an optional `+` or
      `-` and a run of decimal digits, leading zeros included. The
      radix-less parser takes a lone `0` followed by `x` as a hexadecimal
      prefix. */
  lemma ParseCellSignedDigits(value: string, ws: string, sign: string, ds: string, rest: string,
                              defaultValue: Num)
    requires Clean(value) == ws + sign + ds + rest
    requires SignedDigits(ws, sign, ds)
    requires rest == [] || !IsDecimalDigit(rest[0])
    ensures var n := Signed(sign == "-", DigitsValue(ds, 10)) as real;
            ParseNumericValue(value, true) == Val(n)
            && (!(ds == "0" && rest != [] && (rest[0] == 'x' || rest[0] == 'X')) ==>
                  ParseIntegerValue(value, defaultValue) == Val(n))
  {
    ParseSignedDigits(ws, sign, ds, rest);
  }

  /** A quoted cell with white space inside the quotes, such as `" 42"`:
      cleaning trims outside the quotes only, and the parsers then skip
      the white space that is left. */
  lemma ParseCellQuotedSignedDigits(ws: string, sign: string, ds: string, defaultValue: Num)
    requires SignedDigits(ws, sign, ds)
    ensures var value := ['"'] + ws + sign + ds + ['"'];
            var n := Signed(sign == "-", DigitsValue(ds, 10)) as real;
            ParseNumericValue(value, true) == Val(n)
            && ParseIntegerValue(value, defaultValue) == Val(n)
  {
    var a := ws + sign + ds;
    var value := ['"'] + ws + sign + ds + ['"'];
    assert value == ['"'] + a + ['"'];
    assert '"' !in a by {
      forall i | 0 <= i < |a|
        ensures a[i] != '"'
      {
        if i < |ws| {
          assert a[i] == ws[i] && IsWhiteSpace(ws[i]);
        } else if i < |ws| + |sign| {
          assert a[i] == sign[i - |ws|];
        } else {
          assert a[i] == ds[i - |ws| - |sign|] && IsDecimalDigit(a[i]);
        }
      }
    }
    assert Trim(value) == value by {
      assert IsTrimmed(value);
      TrimOfPadded([], value, []);
      assert [] + value + [] == value;
    }
    QuotesRemoved(['"'], a, ['"']);
    assert Clean(value) == ws + sign + ds + [];
    ParseCellSignedDigits(value, ws, sign, ds, [], defaultValue);
  }

  /** When the cleaned cell does not start (after white space and a sign)
      with a digit, integer parsing fails: `parseNumericValue` gives NaN and
      `parseIntegerValue` its default. */
  lemma ParseCellNoDigits(value: string, defaultValue: Num)
    requires var u := AfterSign(TrimStart(Clean(value))); u == [] || !IsDecimalDigit(u[0])
    ensures ParseNumericValue(value, true) == NaN
    ensures ParseIntegerValue(value, defaultValue) == defaultValue
  {
    var u := AfterSign(TrimStart(Clean(value)));
    assert !HasHexPrefix(u);
  }

  /** Reading an integer written in decimal gives the integer back, through
      either parser and through `parseFloat`. */
  lemma ParseCellRoundTrip(n: int, defaultValue: Num)
    ensures ParseNumericValue(IntToString(n), true) == Val(n as real)
    ensures ParseNumericValue(IntToString(n), false) == Val(n as real)
    ensures ParseIntegerValue(IntToString(n), defaultValue) == Val(n as real)
  {
    var s := IntToString(n);
    assert Clean(s) == s + [] by {
      CleanIntToString(n);
    }
    assert ParseNumericValue(s, true) == Val(n as real)
        && ParseIntegerValue(s, defaultValue) == Val(n as real) by {
      ParseCellIntegerPrefix(s, n, [], defaultValue);
    }
    assert ParseFloat(s + []) == Val(n as real) by {
      ParseFloatIntegerPrefix(n, []);
    }
  }

  // ---------------------------------------------------------------------
  // Coercion rules, per report

  const MovieNumericFields: seq<string> :=
    ["totalResidents", "attendedEvent", "satisfactionPercent", "duration"]
  const HealthIntegerFields: seq<string> :=
    ["totalResidents", "attended", "highBloodSugar", "highUricAcid", "highestBloodSugar",
     "highestUricAcid", "averageAge", "doorToDoorAttendance", "averageBloodSugar", "averageUricAcid"]
  const HealthMixedFields: seq<string> := ["highBloodPressure", "lowBloodPressure"]
  const HealthTextFields: seq<string> := ["highestBloodPressure", "averageBloodPressure"]
  const ArtNumericFields: seq<string> :=
    ["totalResidents", "attendedEvent", "satisfactionPercent", "duration"]
  const HouseNumericFields: seq<string> := ["totalResidents", "totalFamilyHead", "totalHouses"]

  /** The headers whose cells a report parses as integers. */
  function IntegerFields(report: Report): seq<string>
  {
    match report
    case Movie => MovieNumericFields
    case Health => HealthIntegerFields
    case Art => ArtNumericFields
    case House => HouseNumericFields
  }

  /** How a report stores the (cleaned) cell found under `header`. A text
      cell is always the cleaned cell itself; integer columns of the art
      and house reports default to 0 and so are never NaN. */
  function Coerce(report: Report, header: string, value: string): (c: Cell)
    ensures c.Text? ==> c == Text(value)
    ensures (header !in IntegerFields(report) && !(report == Health && header in HealthMixedFields))
            ==> c == Text(value)
    ensures header in IntegerFields(report) ==> c.Number?
    ensures (report == Art || report == House) && header in IntegerFields(report) ==> c.n.Val?
  {
    match report
    case Movie =>
      if header in MovieNumericFields then Number(ParseNumericValue(value, true))
      else Text(value)
    case Health =>
      if header in HealthIntegerFields then Number(ParseNumericValue(value, true))
      else if header in HealthMixedFields then
        var parsed := ParseNumericValue(value, false);
        if !parsed.NaN? then Number(parsed) else Text(value)
      else if header in HealthTextFields then Text(value)
      else Text(value)
    case Art =>
      if header in ArtNumericFields then Number(ParseIntegerValue(value, Val(0.0)))
      else Text(value)
    case House =>
      if header in HouseNumericFields then Number(ParseIntegerValue(value, Val(0.0)))
      else Text(value)
  }

  /** An integer column holding no integer: NaN for the movie and health
      reports, 0 for the art and house reports. */
  lemma UnparsableIntegerCell(report: Report, header: string, value: string)
    requires header in IntegerFields(report)
    requires var u := AfterSign(TrimStart(Clean(value))); u == [] || !IsDecimalDigit(u[0])
    ensures Coerce(report, header, value)
            == if report == Movie || report == Health then Number(NaN) else Number(Val(0.0))
  {
    ParseCellNoDigits(value, Val(0.0));
  }

  /** An integer column holds what its report's helper reads from the
      cell: `parseNumericValue(value, true)` in the movie and health
      reports, `parseIntegerValue(value)` in the art and house reports. */
  lemma IntegerColumnHelper(report: Report, header: string, value: string)
    requires header in IntegerFields(report)
    ensures Coerce(report, header, value)
            == Number(if report == Movie || report == Health then ParseNumericValue(value, true)
                      else ParseIntegerValue(value, Val(0.0)))
  {
  }

  /** An integer column holding the decimal form of `n` stores `n`, in
      every report. */
  lemma IntegerColumnRead(report: Report, header: string, n: int)
    requires header in IntegerFields(report)
    ensures Coerce(report, header, IntToString(n)) == Number(Val(n as real))
  {
    IntegerColumnHelper(report, header, IntToString(n));
    ParseCellRoundTrip(n, Val(0.0));
  }

  /** A blood-pressure field of the health report holds a number exactly
      when `parseFloat` can read one from the cell, and otherwise the
      cleaned cell as it is. */
  lemma HealthMixedCell(header: string, value: string)
    requires header in HealthMixedFields
    ensures Coerce(Health, header, value).Text? <==> !StartsDecimal(AfterSign(TrimStart(Clean(value))))
    ensures Coerce(Health, header, value).Number? ==>
              Coerce(Health, header, value) == Number(ParseFloat(Clean(value)))
  {
    assert header !in HealthIntegerFields;
    assert ParseNumericValue(value, false) == ParseFloat(Clean(value));
  }

  /** A blood-pressure cell that starts with an integer followed by
      anything that cannot continue a decimal number (a reading such as
      `120/80`, or `120` alone) is stored as that integer; the rest is
      dropped. */
  lemma HealthMixedInteger(header: string, value: string, n: int, rest: string)
    requires header in HealthMixedFields
    requires Clean(value) == IntToString(n) + rest
    requires rest == [] || !(IsDecimalDigit(rest[0]) || rest[0] == '.' || rest[0] == 'e' || rest[0] == 'E')
    ensures Coerce(Health, header, value) == Number(Val(n as real))
  {
    MixedNotInteger(header);
    assert ParseNumericValue(value, false) == Val(n as real) by {
      ParseFloatIntegerPrefix(n, rest);
    }
  }

  lemma MixedNotInteger(header: string)
    requires header in HealthMixedFields
    ensures header !in HealthIntegerFields
  {
  }

  /** A blood-pressure cell that starts with a letter (a label such as
      `Tinggi`) is stored as the cleaned text. */
  lemma HealthMixedLabel(header: string, value: string)
    requires header in HealthMixedFields
    requires var c := Clean(value); c != [] && ('A' <= c[0] <= 'Z' || 'a' <= c[0] <= 'z')
    ensures Coerce(Health, header, value) == Text(value)
  {
    LabelNotDecimal(Clean(value));
    HealthMixedCell(header, value);
  }

  lemma LabelNotDecimal(c: string)
    requires c != [] && ('A' <= c[0] <= 'Z' || 'a' <= c[0] <= 'z')
    ensures !StartsDecimal(AfterSign(TrimStart(c)))
  {
    assert TrimStart(c) == c;
  }

  /** A trimmed cell without quotes is left alone by cleaning. */
  lemma CleanPadded(s: string)
    requires IsTrimmed(s) && '"' !in s
    ensures Clean(s) == s
  {
    TrimOfPadded([], s, []);
    assert [] + s + [] == s;
    RemoveQuotesUnquoted(s);
  }

  // ---------------------------------------------------------------------
  // From header and value cells to a record

  /** The last of the first `n` columns whose header is `k`, or -1. */
  function LastIndexBefore(headers: seq<string>, k: string, n: nat): (i: int)
    requires n <= |headers|
    ensures -1 <= i < n
    ensures i >= 0 ==> headers[i] == k
    ensures forall j :: i < j < n ==> headers[j] != k
  {
    if n == 0 then -1
    else if headers[n - 1] == k then n - 1
    else LastIndexBefore(headers, k, n - 1)
  }

  /** The cells `headers.forEach` stores after visiting the first `n`
      headers: a non-empty header with a cell at its index gets that cell
      (a repeated header overwrites the earlier one). */
  function CellsUpTo(headers: seq<string>, values: seq<string>, n: nat): map<string, string>
    requires n <= |headers|
  {
    if n == 0 then map[]
    else
      var cells := CellsUpTo(headers, values, n - 1);
      var header := headers[n - 1];
      if header != "" && n - 1 < |values| then cells[header := values[n - 1]] else cells
  }

  /** Each stored cell coerced under its own header. */
  function Coerced(report: Report, cells: map<string, string>): Record
  {
    map k | k in cells :: Coerce(report, k, cells[k])
  }

  /** The record the `headers.forEach` loop builds from one row. */
  function Row(report: Report, headers: seq<string>, values: seq<string>): Record
  {
    Coerced(report, CellsUpTo(headers, values, |headers|))
  }

  /** A header is stored exactly when it is non-empty and has a cell at
      its index, and it holds the cell of the last such column. */
  lemma CellsUpToEntry(headers: seq<string>, values: seq<string>, n: nat, k: string)
    requires n <= |headers|
    ensures var cells := CellsUpTo(headers, values, n);
            var i := LastIndexBefore(headers, k, Min(n, |values|));
            (k in cells <==> k != "" && i >= 0)
            && (k in cells ==> cells[k] == values[i])
  {
    CellsUpToKeys(headers, values, n, k);
    if k != "" && LastIndexBefore(headers, k, Min(n, |values|)) >= 0 {
      CellsUpToValue(headers, values, n, k);
    }
  }

  lemma {:induction false} CellsUpToKeys(headers: seq<string>, values: seq<string>, n: nat, k: string)
    requires n <= |headers|
    ensures k in CellsUpTo(headers, values, n)
            <==> k != "" && LastIndexBefore(headers, k, Min(n, |values|)) >= 0
  {
    if n > 0 {
      CellsUpToKeys(headers, values, n - 1, k);
      if n - 1 < |values| {
        assert Min(n, |values|) == n && Min(n - 1, |values|) == n - 1;
      } else {
        assert Min(n, |values|) == Min(n - 1, |values|);
      }
    }
  }

  lemma {:induction false} CellsUpToValue(headers: seq<string>, values: seq<string>, n: nat, k: string)
    requires n <= |headers| && k != ""
    requires LastIndexBefore(headers, k, Min(n, |values|)) >= 0
    ensures var i := LastIndexBefore(headers, k, Min(n, |values|));
            i < |values| && k in CellsUpTo(headers, values, n)
            && CellsUpTo(headers, values, n)[k] == values[i]
  {
    assert n > 0;
    if n - 1 < |values| && headers[n - 1] == k {
      assert Min(n, |values|) == n;
    } else {
      assert LastIndexBefore(headers, k, Min(n, |values|)) == LastIndexBefore(headers, k, Min(n - 1, |values|));
      CellsUpToValue(headers, values, n - 1, k);
    }
  }

  /** The cell under header `k` in a row (the last such column), or the
      empty string when the header is absent or the row too short. */
  function CellUnder(headers: seq<string>, values: seq<string>, k: string): string
  {
    var i := LastIndexBefore(headers, k, Min(|headers|, |values|));
    if i >= 0 then values[i] else ""
  }

  /** `Row` in terms of the columns: a field is set exactly for the
      non-empty headers that have a cell, with the coerced cell of the last
      column carrying that header. */
  lemma RowEntry(report: Report, headers: seq<string>, values: seq<string>, k: string)
    ensures var data := Row(report, headers, values);
            var i := LastIndexBefore(headers, k, Min(|headers|, |values|));
            (k in data <==> k != "" && i >= 0)
            && (k in data ==> data[k] == Coerce(report, k, CellUnder(headers, values, k)))
  {
    CellsUpToEntry(headers, values, |headers|, k);
  }

  /** Cells beyond the last header are ignored. */
  lemma ExtraCellsIgnored(report: Report, headers: seq<string>, values: seq<string>)
    requires |values| >= |headers|
    ensures Row(report, headers, values) == Row(report, headers, values[..|headers|])
  {
    var a := CellsUpTo(headers, values, |headers|);
    var b := CellsUpTo(headers, values[..|headers|], |headers|);
    forall k
      ensures (k in a <==> k in b) && (k in a ==> a[k] == b[k])
    {
      CellsUpToEntry(headers, values, |headers|, k);
      CellsUpToEntry(headers, values[..|headers|], |headers|, k);
    }
    assert a == b;
  }

  /** Storing one more cell sets one more coerced field. */
  lemma CoercedUpdate(report: Report, cells: map<string, string>, header: string, value: string)
    ensures Coerced(report, cells[header := value])
            == Coerced(report, cells)[header := Coerce(report, header, value)]
  {
  }

  /** The `headers.forEach` loop: visit the headers in order and set each
      non-empty one that has a cell to its coerced cell. */
  method FillRecord(report: Report, headers: seq<string>, values: seq<string>) returns (data: Record)
    ensures data == Row(report, headers, values)
  {
    data := map[];
    for index := 0 to |headers|
      invariant data == Coerced(report, CellsUpTo(headers, values, index))
    {
      var header := headers[index];
      if header != "" && index < |values| {
        CoercedUpdate(report, CellsUpTo(headers, values, index), header, values[index]);
        data := data[header := Coerce(report, header, values[index])];
      }
    }
  }

  // ---------------------------------------------------------------------
  // Lines and cells

  /** `csvText.trim().split('\n')`. */
  function Lines(csvText: string): (lines: seq<string>)
    ensures |lines| >= 1
  {
    Split(Trim(csvText), '\n')
  }

  /** `line.split(',').map(header => header.trim())`. */
  function HeaderCells(line: string): (cells: seq<string>)
    ensures |cells| == |Split(line, ',')|
    ensures forall i :: 0 <= i < |cells| ==> IsTrimmed(cells[i])
  {
    var parts := Split(line, ',');
    seq(|parts|, i requires 0 <= i < |parts| => Trim(parts[i]))
  }

  /** `line.split(',').map(value => value.trim().replace(/"/g, ''))`; the
      art parser cleans its headers the same way. */
  function ValueCells(line: string): (cells: seq<string>)
    ensures |cells| == |Split(line, ',')|
    ensures forall i :: 0 <= i < |cells| ==> '"' !in cells[i]
  {
    CleanAll(Split(line, ','))
  }

  function CleanAll(cells: seq<string>): seq<string>
  {
    seq(|cells|, i requires 0 <= i < |cells| => Clean(cells[i]))
  }

  /** A text has fewer than two lines exactly when its trimmed form holds
      no line feed; the empty text has one (empty) line. */
  lemma ShortDocument(csvText: string)
    ensures |Lines(csvText)| < 2 <==> '\n' !in Trim(csvText)
    ensures Lines("") == [""]
  {
    SplitSingle(Trim(csvText), '\n');
  }

  /** The split ignores quoting: a line has one cell more than it has
      commas, whether or not a comma sits inside double quotes. */
  lemma CellCount(line: string)
    ensures |ValueCells(line)| == |HeaderCells(line)| == multiset(line)[','] + 1
  {
    SplitCount(line, ',');
  }

  /** Cleaning removes double quotes around a trimmed cell. */
  lemma CleanQuoted(pre: string, a: string, post: string)
    requires pre == [] || pre == ['"']
    requires post == [] || post == ['"']
    requires a != [] && IsTrimmed(a) && '"' !in a
    ensures Clean(pre + a + post) == a
  {
    QuotedTrimmed(pre, a, post);
    QuotesRemoved(pre, a, post);
  }

  lemma QuotedTrimmed(pre: string, a: string, post: string)
    requires pre == [] || pre == ['"']
    requires post == [] || post == ['"']
    requires a != [] && IsTrimmed(a)
    ensures Trim(pre + a + post) == pre + a + post
  {
    var s := pre + a + post;
    assert IsTrimmed(s) by {
      assert s[0] == if pre == [] then a[0] else '"';
      assert s[|s| - 1] == if post == [] then a[|a| - 1] else '"';
    }
    TrimOfPadded([], s, []);
    assert [] + s + [] == s;
  }

  lemma QuotesRemoved(pre: string, a: string, post: string)
    requires pre == [] || pre == ['"']
    requires post == [] || post == ['"']
    requires '"' !in a
    ensures RemoveQuotes(pre + a + post) == a
  {
    RemoveQuotesConcat(pre + a, post);
    RemoveQuotesConcat(pre, a);
    RemoveQuotesUnquoted(a);
  }

  /** A quoted cell holding a comma becomes two cells, shifting every
      later column: the line `"a,b"` gives the two cells `a` and `b`. */
  lemma QuotedCommaSplits(a: string, b: string)
    requires a != [] && b != [] && IsTrimmed(a) && IsTrimmed(b)
    requires ',' !in a && ',' !in b && '"' !in a && '"' !in b
    ensures ValueCells("\"" + a + "," + b + "\"") == [a, b]
  {
    var qa := "\"" + a;
    var bq := b + "\"";
    var line := "\"" + a + "," + b + "\"";
    assert Split(line, ',') == [qa, bq] by {
      assert line == Join([qa, bq], ',');
      SplitJoin([qa, bq], ',');
    }
    assert CleanAll([qa, bq]) == [a, b] by {
      CleanOpenQuote(a);
      CleanCloseQuote(b);
    }
  }

  lemma CleanOpenQuote(a: string)
    requires a != [] && IsTrimmed(a) && '"' !in a
    ensures Clean("\"" + a) == a
  {
    CleanQuoted(['"'], a, []);
    assert ['"'] + a + [] == "\"" + a;
  }

  lemma CleanCloseQuote(a: string)
    requires a != [] && IsTrimmed(a) && '"' !in a
    ensures Clean(a + "\"") == a
  {
    CleanQuoted([], a, ['"']);
    assert [] + a + ['"'] == a + "\"";
  }

  // ---------------------------------------------------------------------
  // The single-row reports: movie screening, health screening, house numbering

  /** The fields each report's interface declares. */
  function DeclaredFields(report: Report): set<string>
  {
    match report
    case Movie =>
      {"totalResidents", "attendedEvent", "satisfactionPercent", "movieTitle", "screeningDate", "duration"}
    case Health =>
      {"totalResidents", "attended", "highBloodSugar", "highUricAcid", "highBloodPressure",
       "lowBloodPressure", "mostCommonComplaint", "highestBloodSugar", "highestUricAcid",
       "highestBloodPressure", "averageAge", "doorToDoorAttendance", "programDateSta",
       "programDateEnd", "averageBloodSugar", "averageUricAcid", "averageBloodPressure"}
    case Art =>
      {"totalResidents", "attendedEvent", "satisfactionPercent", "eventDate", "duration", "programTitle"}
    case House =>
      {"totalResidents", "totalFamilyHead", "totalHouses", "programDate"}
  }

  /** The record returned for a text with fewer than two lines. */
  function Fallback(report: Report): Record
    requires report != Art
  {
    match report
    case Movie =>
      map["totalResidents" := Number(NaN), "attendedEvent" := Number(NaN),
          "satisfactionPercent" := Number(NaN), "movieTitle" := Text("N/A"),
          "screeningDate" := Text("N/A"), "duration" := Number(NaN)]
    case Health =>
      map["totalResidents" := Number(NaN), "attended" := Number(NaN),
          "highBloodSugar" := Number(NaN), "highUricAcid" := Number(NaN),
          "highBloodPressure" := Text("N/A"), "lowBloodPressure" := Text("N/A"),
          "mostCommonComplaint" := Text("N/A"), "highestBloodSugar" := Number(NaN),
          "highestUricAcid" := Number(NaN), "highestBloodPressure" := Text("N/A"),
          "averageAge" := Number(NaN), "doorToDoorAttendance" := Number(NaN),
          "programDateSta" := Text("N/A"), "programDateEnd" := Text("N/A"),
          "averageBloodSugar" := Number(NaN), "averageUricAcid" := Number(NaN),
          "averageBloodPressure" := Text("N/A")]
    case House =>
      map["totalResidents" := Number(NaN), "totalFamilyHead" := Number(NaN),
          "totalHouses" := Number(NaN), "programDate" := Text("N/A")]
  }

  /** The fallback record has every declared field: NaN for the fields the
      report parses as integers and "N/A" for all others. */
  lemma FallbackFields(report: Report)
    requires report != Art
    ensures Fallback(report).Keys == DeclaredFields(report)
    ensures forall k :: k in Fallback(report) ==>
              Fallback(report)[k] == if k in IntegerFields(report) then Number(NaN) else Text("N/A")
  {
    match report
    case Movie => MovieFallbackFields();
    case Health => HealthFallbackKeys(); HealthFallbackValues();
    case House => HouseFallbackFields();
  }

  lemma MovieFallbackFields()
    ensures Fallback(Movie).Keys == DeclaredFields(Movie)
    ensures forall k :: k in Fallback(Movie) ==>
              Fallback(Movie)[k] == if k in MovieNumericFields then Number(NaN) else Text("N/A")
  {
  }

  lemma HealthFallbackKeys()
    ensures Fallback(Health).Keys == DeclaredFields(Health)
  {
  }

  lemma HealthFallbackValues()
    ensures forall k :: k in Fallback(Health) ==>
              Fallback(Health)[k] == if k in HealthIntegerFields then Number(NaN) else Text("N/A")
  {
  }

  lemma HouseFallbackFields()
    ensures Fallback(House).Keys == DeclaredFields(House)
    ensures forall k :: k in Fallback(House) ==>
              Fallback(House)[k] == if k in HouseNumericFields then Number(NaN) else Text("N/A")
  {
  }

  /** What a single-row parser returns for a text: the fallback when there
      are fewer than two lines, otherwise the record built from the header
      line and the first value line. */
  function SingleRowRecord(report: Report, csvText: string): Record
    requires report != Art
  {
    var lines := Lines(csvText);
    if |lines| < 2 then Fallback(report)
    else Row(report, HeaderCells(lines[0]), ValueCells(lines[1]))
  }

  /** The shared body of the three single-row parsers. */
  method ParseSingleRow(report: Report, csvText: string) returns (data: Record)
    requires report != Art
    ensures data == SingleRowRecord(report, csvText)
  {
    var lines := Lines(csvText);
    if |lines| < 2 {
      return Fallback(report);
    }
    var headers := HeaderCells(lines[0]);
    var values := ValueCells(lines[1]);
    data := FillRecord(report, headers, values);
  }

  /** `fetchMovieScreeningData`, from the text of the export. */
  method FetchMovieScreeningData(csvText: string) returns (data: Record)
    ensures data == SingleRowRecord(Movie, csvText)
  {
    data := ParseSingleRow(Movie, csvText);
  }

  /** `fetchHealthScreeningData`, from the text of the export. */
  method FetchHealthScreeningData(csvText: string) returns (data: Record)
    ensures data == SingleRowRecord(Health, csvText)
  {
    data := ParseSingleRow(Health, csvText);
  }

  /** `fetchHouseNumberingData`, from the text of the export. */
  method FetchHouseNumberingData(csvText: string) returns (data: Record)
    ensures data == SingleRowRecord(House, csvText)
  {
    data := ParseSingleRow(House, csvText);
  }

  /** A text without a line feed after trimming (the empty text among
      them) gives exactly the fallback record. */
  lemma ShortDocumentFallback(report: Report, csvText: string)
    requires report != Art
    requires '\n' !in Trim(csvText)
    ensures SingleRowRecord(report, csvText) == Fallback(report)
    ensures SingleRowRecord(report, "") == Fallback(report)
  {
    ShortDocument(csvText);
  }

  /** With a header line and a value line, field `k` of the record is set
      exactly when `k` is a non-empty header with a cell in the value line,
      and then holds the coerced cell of the last column headed `k`. */
  lemma SingleRowEntry(report: Report, csvText: string, k: string)
    requires report != Art
    requires |Lines(csvText)| >= 2
    ensures var lines := Lines(csvText);
            var headers := HeaderCells(lines[0]);
            var values := ValueCells(lines[1]);
            var data := SingleRowRecord(report, csvText);
            (k in data <==> k != "" && LastIndexBefore(headers, k, Min(|headers|, |values|)) >= 0)
            && (k in data ==> data[k] == Coerce(report, k, CellUnder(headers, values, k)))
  {
    var lines := Lines(csvText);
    RowEntry(report, HeaderCells(lines[0]), ValueCells(lines[1]), k);
  }

  /** Only the header line and the first value line are read. */
  lemma LaterLinesIgnored(report: Report, a: string, b: string)
    requires report != Art
    requires |Lines(a)| >= 2 && |Lines(b)| >= 2
    requires Lines(a)[..2] == Lines(b)[..2]
    ensures SingleRowRecord(report, a) == SingleRowRecord(report, b)
  {
    assert Lines(a)[0] == Lines(a)[..2][0] && Lines(a)[1] == Lines(a)[..2][1];
    assert Lines(b)[0] == Lines(b)[..2][0] && Lines(b)[1] == Lines(b)[..2][1];
  }

  /** A header cell: no comma, no line feed, no white space at its ends. */
  predicate PlainHeader(h: string)
  {
    ',' !in h && '\n' !in h && IsTrimmed(h)
  }

  /** A header line to write out: plain header cells, the first one not
      empty. */
  predicate PlainHeaders(headers: seq<string>)
  {
    |headers| >= 1 && headers[0] != [] && forall i :: 0 <= i < |headers| ==> PlainHeader(headers[i])
  }

  /** A value line to write out: no commas or line feeds inside the cells,
      and a last cell that is not empty and ends without white space. */
  predicate PlainValues(values: seq<string>)
  {
    |values| >= 1
    && (forall i :: 0 <= i < |values| ==> ',' !in values[i] && '\n' !in values[i])
    && values[|values| - 1] != [] && IsTrimmed(values[|values| - 1])
  }

  /** Two lines without line feeds inside, and with no white space at the
      start of the first nor at the end of the second. */
  lemma TwoLines(first: string, second: string)
    requires '\n' !in first && '\n' !in second
    requires first != [] && !IsWhiteSpace(first[0])
    requires second != [] && !IsWhiteSpace(second[|second| - 1])
    ensures Lines(first + "\n" + second) == [first, second]
  {
    var text := first + "\n" + second;
    assert text == Join([first, second], '\n');
    assert IsTrimmed(text) by {
      assert text[0] == first[0];
      assert text[|text| - 1] == second[|second| - 1];
    }
    TrimOfPadded([], text, []);
    assert [] + text + [] == text;
    SplitJoin([first, second], '\n');
  }

  /** Joined plain header names are read back as they are. */
  lemma HeaderCellsOfJoin(headers: seq<string>)
    requires |headers| >= 1
    requires forall i :: 0 <= i < |headers| ==> PlainHeader(headers[i])
    ensures HeaderCells(Join(headers, ',')) == headers
  {
    var cells := HeaderCells(Join(headers, ','));
    assert Split(Join(headers, ','), ',') == headers by {
      SplitJoin(headers, ',');
    }
    forall i | 0 <= i < |headers|
      ensures cells[i] == headers[i]
    {
      TrimOfPadded([], headers[i], []);
      assert [] + headers[i] + [] == headers[i];
    }
  }

  /** A document made of one header line and one value line, without
      commas or line feeds inside the cells, is read as written: the
      headers as they are and the values cleaned. */
  lemma PlainDocument(report: Report, headers: seq<string>, values: seq<string>)
    requires report != Art && PlainHeaders(headers) && PlainValues(values)
    ensures SingleRowRecord(report, Join(headers, ',') + "\n" + Join(values, ','))
            == Row(report, headers, CleanAll(values))
  {
    var hl := Join(headers, ',');
    var vl := Join(values, ',');
    assert Lines(hl + "\n" + vl) == [hl, vl] by {
      JoinAvoids(headers, ',', '\n');
      JoinAvoids(values, ',', '\n');
      JoinLast(values, ',');
      assert hl[0] == headers[0][0];
      TwoLines(hl, vl);
    }
    assert HeaderCells(hl) == headers by {
      HeaderCellsOfJoin(headers);
    }
    assert ValueCells(vl) == CleanAll(values) by {
      SplitJoin(values, ',');
    }
  }

  /** A row of one column with a non-empty header is the one field. */
  lemma SingleColumnRow(report: Report, header: string, value: string)
    requires header != ""
    ensures Row(report, [header], [value]) == map[header := Coerce(report, header, value)]
  {
    assert CellsUpTo([header], [value], 1) == map[header := value];
  }

  /** A document whose header line names a single column gives a record
      with that one field. */
  lemma SingleColumnDocument(report: Report, header: string, value: string)
    requires report != Art
    requires header != [] && PlainHeader(header)
    requires value != [] && IsTrimmed(value) && ',' !in value && '\n' !in value
    ensures SingleRowRecord(report, header + "\n" + value)
            == map[header := Coerce(report, header, Clean(value))]
  {
    assert SingleRowRecord(report, header + "\n" + value) == Row(report, [header], CleanAll([value])) by {
      PlainDocument(report, [header], [value]);
      assert Join([header], ',') == header && Join([value], ',') == value;
    }
    assert CleanAll([value]) == [Clean(value)];
    SingleColumnRow(report, header, Clean(value));
  }

  /** A cell wrapped in double quotes. */
  function Quoted(s: string): string
  {
    "\"" + s + "\""
  }

  function QuotedAll(cells: seq<string>): seq<string>
  {
    seq(|cells|, i requires 0 <= i < |cells| => Quoted(cells[i]))
  }

  /** A text cell that survives the split and cleaning unchanged. */
  predicate PlainCell(s: string)
  {
    s != [] && IsTrimmed(s) && ',' !in s && '\n' !in s && '"' !in s
  }

  /** A document whose value cells are all wrapped in double quotes is read
      with the quotes removed. */
  lemma QuotedDocument(report: Report, headers: seq<string>, cells: seq<string>)
    requires report != Art && PlainHeaders(headers)
    requires |cells| >= 1 && forall i :: 0 <= i < |cells| ==> PlainCell(cells[i])
    ensures SingleRowRecord(report, Join(headers, ',') + "\n" + Join(QuotedAll(cells), ','))
            == Row(report, headers, cells)
  {
    QuotedAllPlain(cells);
    QuotedAllClean(cells);
    PlainDocument(report, headers, QuotedAll(cells));
  }

  lemma QuotedAllPlain(cells: seq<string>)
    requires |cells| >= 1
    requires forall i :: 0 <= i < |cells| ==> PlainCell(cells[i])
    ensures PlainValues(QuotedAll(cells))
  {
    var values := QuotedAll(cells);
    forall i | 0 <= i < |values|
      ensures ',' !in values[i] && '\n' !in values[i]
    {
      QuotedPlain(cells[i]);
    }
    QuotedPlain(cells[|cells| - 1]);
  }

  lemma QuotedAllClean(cells: seq<string>)
    requires forall i :: 0 <= i < |cells| ==> PlainCell(cells[i])
    ensures CleanAll(QuotedAll(cells)) == cells
  {
    var values := QuotedAll(cells);
    forall i | 0 <= i < |cells|
      ensures Clean(values[i]) == cells[i]
    {
      QuotedCell(cells[i]);
    }
  }

  lemma QuotedCell(s: string)
    requires PlainCell(s)
    ensures Clean(Quoted(s)) == s
  {
    CleanQuoted(['"'], s, ['"']);
  }

  lemma QuotedPlain(s: string)
    requires PlainCell(s)
    ensures ',' !in Quoted(s) && '\n' !in Quoted(s) && IsTrimmed(Quoted(s)) && Quoted(s) != []
  {
  }

  /** The movie interface's fields, in declaration order. */
  const MovieHeaders: seq<string> :=
    ["totalResidents", "attendedEvent", "satisfactionPercent", "movieTitle", "screeningDate", "duration"]

  lemma MovieHeadersPlain()
    ensures PlainHeaders(MovieHeaders)
  {
    forall i | 0 <= i < |MovieHeaders|
      ensures PlainHeader(MovieHeaders[i])
    {
      LetterName(MovieHeaders[i]);
    }
  }

  /** A name made of ASCII letters is a plain header cell. */
  lemma LetterName(h: string)
    requires h != [] && forall i :: 0 <= i < |h| ==> 'A' <= h[i] <= 'Z' || 'a' <= h[i] <= 'z'
    ensures PlainHeader(h)
  {
  }

  /** The six movie columns in interface order, each coerced by its rule. */
  lemma MovieRow(cells: seq<string>)
    requires |cells| == 6
    ensures Row(Movie, MovieHeaders, cells)
            == map["totalResidents" := Number(ParseNumericValue(cells[0], true)),
                   "attendedEvent" := Number(ParseNumericValue(cells[1], true)),
                   "satisfactionPercent" := Number(ParseNumericValue(cells[2], true)),
                   "movieTitle" := Text(cells[3]), "screeningDate" := Text(cells[4]),
                   "duration" := Number(ParseNumericValue(cells[5], true))]
  {
    var h := MovieHeaders;
    DistinctRow(Movie, h, cells);
    assert Coerce(Movie, h[0], cells[0]) == Number(ParseNumericValue(cells[0], true));
    assert Coerce(Movie, h[1], cells[1]) == Number(ParseNumericValue(cells[1], true));
    assert Coerce(Movie, h[2], cells[2]) == Number(ParseNumericValue(cells[2], true));
    assert Coerce(Movie, h[3], cells[3]) == Text(cells[3]);
    assert Coerce(Movie, h[4], cells[4]) == Text(cells[4]);
    assert Coerce(Movie, h[5], cells[5]) == Number(ParseNumericValue(cells[5], true));
  }

  /** Six non-empty headers, each with its cell: the row stores each cell
      coerced under its header, later columns last. */
  lemma DistinctRow(report: Report, h: seq<string>, cells: seq<string>)
    requires |h| == 6 && |cells| == 6
    requires forall i :: 0 <= i < 6 ==> h[i] != ""
    ensures Row(report, h, cells)
            == map[][h[0] := Coerce(report, h[0], cells[0])][h[1] := Coerce(report, h[1], cells[1])]
                 [h[2] := Coerce(report, h[2], cells[2])][h[3] := Coerce(report, h[3], cells[3])]
                 [h[4] := Coerce(report, h[4], cells[4])][h[5] := Coerce(report, h[5], cells[5])]
  {
    var m0: map<string, string> := map[];
    var m1 := m0[h[0] := cells[0]];
    var m2 := m1[h[1] := cells[1]];
    var m3 := m2[h[2] := cells[2]];
    var m4 := m3[h[3] := cells[3]];
    var m5 := m4[h[4] := cells[4]];
    var m6 := m5[h[5] := cells[5]];
    assert CellsUpTo(h, cells, 6) == m6 by {
      CellsUpToNext(h, cells, 0);
      CellsUpToNext(h, cells, 1);
      CellsUpToNext(h, cells, 2);
      CellsUpToNext(h, cells, 3);
      CellsUpToNext(h, cells, 4);
      CellsUpToNext(h, cells, 5);
    }
    assert Coerced(report, m0) == map[];
    CoercedUpdate(report, m0, h[0], cells[0]);
    CoercedUpdate(report, m1, h[1], cells[1]);
    CoercedUpdate(report, m2, h[2], cells[2]);
    CoercedUpdate(report, m3, h[3], cells[3]);
    CoercedUpdate(report, m4, h[4], cells[4]);
    CoercedUpdate(report, m5, h[5], cells[5]);
  }

  /** One more visited header with a cell stores that cell. */
  lemma CellsUpToNext(headers: seq<string>, values: seq<string>, n: nat)
    requires n < |headers| && n < |values| && headers[n] != ""
    ensures CellsUpTo(headers, values, n + 1) == CellsUpTo(headers, values, n)[headers[n] := values[n]]
  {
  }

  /** The decimal form of an integer is a plain cell. */
  lemma IntegerCell(n: int)
    ensures PlainCell(IntToString(n))
  {
    IntToStringPlain(n);
    IntToStringChars(n);
  }

  /** A movie export with the columns in interface order and every cell
      quoted, such as the header line followed by
      `"50","30","88","Title","04/07/2025","120"`, gives the full record:
      the integers read back, the texts without their quotes. */
  lemma MovieDocument(residents: int, attended: int, satisfaction: int, title: string, date: string, duration: int)
    requires PlainCell(title) && PlainCell(date)
    ensures SingleRowRecord(Movie, Join(MovieHeaders, ',') + "\n"
              + Join(QuotedAll([IntToString(residents), IntToString(attended), IntToString(satisfaction),
                                title, date, IntToString(duration)]), ','))
            == map["totalResidents" := Number(Val(residents as real)),
                   "attendedEvent" := Number(Val(attended as real)),
                   "satisfactionPercent" := Number(Val(satisfaction as real)),
                   "movieTitle" := Text(title), "screeningDate" := Text(date),
                   "duration" := Number(Val(duration as real))]
  {
    var cells := [IntToString(residents), IntToString(attended), IntToString(satisfaction),
                  title, date, IntToString(duration)];
    assert forall i :: 0 <= i < |cells| ==> PlainCell(cells[i]) by {
      IntegerCell(residents);
      IntegerCell(attended);
      IntegerCell(satisfaction);
      IntegerCell(duration);
    }
    MovieHeadersPlain();
    QuotedDocument(Movie, MovieHeaders, cells);
    MovieRow(cells);
    ParseCellRoundTrip(residents, NaN);
    ParseCellRoundTrip(attended, NaN);
    ParseCellRoundTrip(satisfaction, NaN);
    ParseCellRoundTrip(duration, NaN);
  }

  /** Unlike the fallback, a parsed record can lack declared fields: the
      record of a single-column document is never the full set of declared
      fields. */
  lemma ParsedRecordCanLackFields(report: Report, header: string, value: string)
    requires report != Art
    requires header != [] && PlainHeader(header)
    requires value != [] && IsTrimmed(value) && ',' !in value && '\n' !in value
    ensures SingleRowRecord(report, header + "\n" + value).Keys != DeclaredFields(report)
  {
    var data := SingleRowRecord(report, header + "\n" + value);
    assert data.Keys == {header} by {
      SingleColumnDocument(report, header, value);
    }
    TwoDeclaredFields(report);
  }

  /** Every report declares at least two fields. */
  lemma TwoDeclaredFields(report: Report)
    ensures exists a, b :: a in DeclaredFields(report) && b in DeclaredFields(report) && a != b
  {
    var other := match report
      case Movie => "duration"
      case Health => "attended"
      case Art => "duration"
      case House => "programDate";
    assert "totalResidents" in DeclaredFields(report) && other in DeclaredFields(report);
    assert |"totalResidents"| != |other|;
  }

  /** The art parser strips quotes from header names, the other parsers
      only trim them: a quoted header `"h"` keeps its quotes for the movie,
      health and house parsers, so it never names an integer column, while
      the art parser reads it as `h`. */
  lemma QuotedHeader(h: string)
    requires h != [] && IsTrimmed(h) && ',' !in h && '"' !in h
    ensures var q := "\"" + h + "\"";
            HeaderCells(q) == [q] && ValueCells(q) == [h]
            && q !in MovieNumericFields && q !in HealthIntegerFields && q !in HouseNumericFields
  {
    var q := "\"" + h + "\"";
    assert Split(q, ',') == [q] by {
      SplitUnseparated(q, ',');
    }
    assert Trim(q) == q by {
      assert IsTrimmed(q) by {
        assert q[0] == '"' && q[|q| - 1] == '"';
      }
      TrimOfPadded([], q, []);
      assert [] + q + [] == q;
    }
    assert Clean(q) == h by {
      CleanQuoted(['"'], h, ['"']);
    }
    QuotedNameNotAField(q);
  }

  /** No field name of the reports starts with a double quote. */
  lemma QuotedNameNotAField(q: string)
    requires q != [] && q[0] == '"'
    ensures q !in MovieNumericFields && q !in HealthIntegerFields && q !in HouseNumericFields
  {
    forall f | f in MovieNumericFields + HealthIntegerFields + HouseNumericFields
      ensures f != [] && f[0] != '"'
    {
    }
  }

  // ---------------------------------------------------------------------
  // The art event: one main event and a sequence of sub-events

  datatype ArtEvent = ArtEvent(
    totalResidents: Num, attendedEvent: Num, satisfactionPercent: Num,
    eventDate: string, duration: Num, programTitle: string)

  datatype ArtSubEvent = ArtSubEvent(
    programTitle: string, totalResidents: Num, attendedEvent: Num,
    satisfactionPercent: Num, eventDate: string, duration: Num,
    programSummary: string, eventProdi: string, kendala: string, solusi: string)

  datatype ArtEventData = ArtEventData(mainEvent: ArtEvent, subEvents: seq<ArtSubEvent>)

  /** `data[k] || 0` on a numeric field: the number when it is neither
      missing, NaN nor 0, and 0 otherwise. (An art row never holds text
      under an integer column, see ArtRowCells.) */
  function NumberOr(data: Record, k: string): (r: Num)
    ensures r.Val?
    ensures r != Val(0.0) ==> k in data && data[k] == Number(r)
  {
    if k in data && data[k].Number? && data[k].n.Val? && data[k].n.v != 0.0 then data[k].n
    else Val(0.0)
  }

  /** `data[k] || default` on a text field: the text when it is present
      and not empty, and the default otherwise. */
  function TextOr(data: Record, k: string, default: string): (r: string)
    ensures r == default || (k in data && data[k] == Text(r) && r != "")
  {
    if k in data && data[k].Text? && data[k].s != "" then data[k].s else default
  }

  function MainEventOf(data: Record): ArtEvent
  {
    ArtEvent(
      totalResidents := NumberOr(data, "totalResidents"),
      attendedEvent := NumberOr(data, "attendedEvent"),
      satisfactionPercent := NumberOr(data, "satisfactionPercent"),
      eventDate := TextOr(data, "eventDate", ""),
      duration := NumberOr(data, "duration"),
      programTitle := TextOr(data, "programTitle", "Art Creation & Exhibition"))
  }

  function SubEventOf(data: Record): ArtSubEvent
  {
    ArtSubEvent(
      programTitle := TextOr(data, "programTitle", "N/A"),
      totalResidents := NumberOr(data, "totalResidents"),
      attendedEvent := NumberOr(data, "attendedEvent"),
      satisfactionPercent := NumberOr(data, "satisfactionPercent"),
      eventDate := TextOr(data, "eventDate", ""),
      duration := NumberOr(data, "duration"),
      programSummary := TextOr(data, "programSummary", "No summary available"),
      eventProdi := TextOr(data, "eventProdi", "No summary available"),
      kendala := TextOr(data, "kendala", "Tidak ada kendala"),
      solusi := TextOr(data, "solusi", "Tidak ada solusi"))
  }

  /** The result for a text with fewer than two lines. */
  function ArtFallback(): ArtEventData
  {
    ArtEventData(ArtEvent(NaN, NaN, NaN, "N/A", NaN, "N/A"), [])
  }

  /** The final assembly: row 0 is the main event, every later row a
      sub-event, in order. */
  function Assemble(rows: seq<Record>): ArtEventData
    requires |rows| >= 1
  {
    ArtEventData(
      MainEventOf(rows[0]),
      seq(|rows| - 1, i requires 0 <= i < |rows| - 1 => SubEventOf(rows[i + 1])))
  }

  /** The record of every value line, in file order. */
  function ArtRows(headers: seq<string>, valueLines: seq<string>): (rows: seq<Record>)
    ensures |rows| == |valueLines|
  {
    seq(|valueLines|, i requires 0 <= i < |valueLines| => Row(Art, headers, ValueCells(valueLines[i])))
  }

  /** What the art parser returns for a text. */
  function ArtEventOf(csvText: string): ArtEventData
  {
    var lines := Lines(csvText);
    if |lines| < 2 then ArtFallback()
    else Assemble(ArtRows(ValueCells(lines[0]), lines[1..]))
  }

  /** `fetchArtEventData`, from the text of the export: one record per
      value line, then the assembly. */
  method FetchArtEventData(csvText: string) returns (result: ArtEventData)
    ensures result == ArtEventOf(csvText)
  {
    var lines := Lines(csvText);
    if |lines| < 2 {
      return ArtFallback();
    }
    var headers := ValueCells(lines[0]);
    var allRowsData := CollectArtRows(headers, lines);
    result := Assemble(allRowsData);
  }

  /** The loop over the value lines: each line's record, pushed in order. */
  method CollectArtRows(headers: seq<string>, lines: seq<string>) returns (allRowsData: seq<Record>)
    requires |lines| >= 1
    ensures allRowsData == ArtRows(headers, lines[1..])
  {
    allRowsData := [];
    for i := 1 to |lines|
      invariant |allRowsData| == i - 1
      invariant forall j :: 0 <= j < i - 1 ==> allRowsData[j] == Row(Art, headers, ValueCells(lines[j + 1]))
    {
      var values := ValueCells(lines[i]);
      var rowData := FillRecord(Art, headers, values);
      allRowsData := allRowsData + [rowData];
    }
    ArtRowsOfLines(headers, lines, allRowsData);
  }

  lemma ArtRowsOfLines(headers: seq<string>, lines: seq<string>, rows: seq<Record>)
    requires |lines| >= 1 && |rows| == |lines| - 1
    requires forall j :: 0 <= j < |rows| ==> rows[j] == Row(Art, headers, ValueCells(lines[j + 1]))
    ensures rows == ArtRows(headers, lines[1..])
  {
    var expected := ArtRows(headers, lines[1..]);
    forall j | 0 <= j < |rows|
      ensures rows[j] == expected[j]
    {
      assert lines[1..][j] == lines[j + 1];
    }
  }

  /** In an art row a field holds a number exactly when its header is one
      of the integer columns; so the `|| 0` defaults only ever see numbers
      and the `|| default` ones only text. */
  lemma ArtRowCells(headers: seq<string>, values: seq<string>, k: string)
    ensures var data := Row(Art, headers, values);
            k in data ==> (data[k].Number? <==> k in ArtNumericFields)
  {
    RowEntry(Art, headers, values, k);
  }

  /** `s || default` on a string. */
  function OrElse(s: string, default: string): string
  {
    if s != "" then s else default
  }

  /** A numeric field of an art event is the integer the cell under its
      header starts with, and 0 when there is no such cell or no integer
      in it. */
  lemma ArtNumericField(headers: seq<string>, values: seq<string>, k: string)
    requires k in ArtNumericFields
    ensures NumberOr(Row(Art, headers, values), k)
            == ParseIntegerValue(CellUnder(headers, values, k), Val(0.0))
    ensures NumberOr(Row(Art, headers, values), k).Val?
  {
    var data := Row(Art, headers, values);
    var cell := CellUnder(headers, values, k);
    RowEntry(Art, headers, values, k);
    if k !in data {
      assert cell == "";
      assert ParseInt(Clean(""), 0) == NaN by {
        assert Clean("") == "";
      }
    }
  }

  /** A text field of an art event is the cell under its header when that
      cell is not empty, and the field's default otherwise. */
  lemma ArtTextField(headers: seq<string>, values: seq<string>, k: string, default: string)
    requires k != "" && k !in ArtNumericFields
    ensures TextOr(Row(Art, headers, values), k, default) == OrElse(CellUnder(headers, values, k), default)
  {
    RowEntry(Art, headers, values, k);
  }

  /** The main event field by field: numbers read from the cells (0 when
      absent or unreadable), the date and the title taken from the cells
      unless empty, the title defaulting to "Art Creation & Exhibition". */
  lemma MainEventFields(headers: seq<string>, values: seq<string>)
    ensures var e := MainEventOf(Row(Art, headers, values));
            e.totalResidents == ParseIntegerValue(CellUnder(headers, values, "totalResidents"), Val(0.0))
            && e.attendedEvent == ParseIntegerValue(CellUnder(headers, values, "attendedEvent"), Val(0.0))
            && e.satisfactionPercent == ParseIntegerValue(CellUnder(headers, values, "satisfactionPercent"), Val(0.0))
            && e.duration == ParseIntegerValue(CellUnder(headers, values, "duration"), Val(0.0))
            && e.eventDate == OrElse(CellUnder(headers, values, "eventDate"), "")
            && e.programTitle == OrElse(CellUnder(headers, values, "programTitle"), "Art Creation & Exhibition")
  {
    ArtNumbersRead(headers, values);
    ArtDateAndTitle(headers, values);
  }

  /** The four numeric fields, shared by the main event and the sub-events. */
  lemma ArtNumbersRead(headers: seq<string>, values: seq<string>)
    ensures var data := Row(Art, headers, values);
            NumberOr(data, "totalResidents") == ParseIntegerValue(CellUnder(headers, values, "totalResidents"), Val(0.0))
            && NumberOr(data, "attendedEvent") == ParseIntegerValue(CellUnder(headers, values, "attendedEvent"), Val(0.0))
            && NumberOr(data, "satisfactionPercent") == ParseIntegerValue(CellUnder(headers, values, "satisfactionPercent"), Val(0.0))
            && NumberOr(data, "duration") == ParseIntegerValue(CellUnder(headers, values, "duration"), Val(0.0))
  {
    ArtNumericField(headers, values, "totalResidents");
    ArtNumericField(headers, values, "attendedEvent");
    ArtNumericField(headers, values, "satisfactionPercent");
    ArtNumericField(headers, values, "duration");
  }

  lemma ArtDateAndTitle(headers: seq<string>, values: seq<string>)
    ensures var data := Row(Art, headers, values);
            TextOr(data, "eventDate", "") == OrElse(CellUnder(headers, values, "eventDate"), "")
            && TextOr(data, "programTitle", "Art Creation & Exhibition")
               == OrElse(CellUnder(headers, values, "programTitle"), "Art Creation & Exhibition")
            && TextOr(data, "programTitle", "N/A") == OrElse(CellUnder(headers, values, "programTitle"), "N/A")
  {
    ArtTextField(headers, values, "eventDate", "");
    ArtTextField(headers, values, "programTitle", "Art Creation & Exhibition");
    ArtTextField(headers, values, "programTitle", "N/A");
  }

  lemma ArtSubEventTexts(headers: seq<string>, values: seq<string>)
    ensures var data := Row(Art, headers, values);
            TextOr(data, "programSummary", "No summary available")
              == OrElse(CellUnder(headers, values, "programSummary"), "No summary available")
            && TextOr(data, "eventProdi", "No summary available")
              == OrElse(CellUnder(headers, values, "eventProdi"), "No summary available")
            && TextOr(data, "kendala", "Tidak ada kendala")
              == OrElse(CellUnder(headers, values, "kendala"), "Tidak ada kendala")
            && TextOr(data, "solusi", "Tidak ada solusi")
              == OrElse(CellUnder(headers, values, "solusi"), "Tidak ada solusi")
  {
    ArtTextField(headers, values, "programSummary", "No summary available");
    ArtTextField(headers, values, "eventProdi", "No summary available");
    ArtTextField(headers, values, "kendala", "Tidak ada kendala");
    ArtTextField(headers, values, "solusi", "Tidak ada solusi");
  }

  /** A sub-event field by field: the same numbers and date as a main
      event, the title defaulting to "N/A" instead, and the summary, study
      programme, obstacle and solution texts with their own defaults. */
  lemma SubEventFields(headers: seq<string>, values: seq<string>)
    ensures var e := SubEventOf(Row(Art, headers, values));
            e.totalResidents == ParseIntegerValue(CellUnder(headers, values, "totalResidents"), Val(0.0))
            && e.attendedEvent == ParseIntegerValue(CellUnder(headers, values, "attendedEvent"), Val(0.0))
            && e.satisfactionPercent == ParseIntegerValue(CellUnder(headers, values, "satisfactionPercent"), Val(0.0))
            && e.duration == ParseIntegerValue(CellUnder(headers, values, "duration"), Val(0.0))
            && e.eventDate == OrElse(CellUnder(headers, values, "eventDate"), "")
            && e.programTitle == OrElse(CellUnder(headers, values, "programTitle"), "N/A")
            && e.programSummary == OrElse(CellUnder(headers, values, "programSummary"), "No summary available")
            && e.eventProdi == OrElse(CellUnder(headers, values, "eventProdi"), "No summary available")
            && e.kendala == OrElse(CellUnder(headers, values, "kendala"), "Tidak ada kendala")
            && e.solusi == OrElse(CellUnder(headers, values, "solusi"), "Tidak ada solusi")
  {
    ArtNumbersRead(headers, values);
    ArtDateAndTitle(headers, values);
    ArtSubEventTexts(headers, values);
  }

  /** With a header line and at least one value line, the main event is
      read from the first value line and one sub-event from each later line,
      in file order. */
  lemma ArtEventShape(csvText: string)
    requires |Lines(csvText)| >= 2
    ensures var lines := Lines(csvText);
            var headers := ValueCells(lines[0]);
            var r := ArtEventOf(csvText);
            |r.subEvents| == |lines| - 2
            && r.mainEvent == MainEventOf(Row(Art, headers, ValueCells(lines[1])))
            && forall j :: 0 <= j < |r.subEvents| ==>
                 r.subEvents[j] == SubEventOf(Row(Art, headers, ValueCells(lines[j + 2])))
  {
    ArtMainEvent(csvText);
    forall j | 0 <= j < |ArtEventOf(csvText).subEvents|
      ensures ArtEventOf(csvText).subEvents[j]
              == SubEventOf(Row(Art, ValueCells(Lines(csvText)[0]), ValueCells(Lines(csvText)[j + 2])))
    {
      assert j + 2 < |Lines(csvText)|;
      ArtSubEventOfLine(csvText, j);
    }
  }

  lemma ArtMainEvent(csvText: string)
    requires |Lines(csvText)| >= 2
    ensures var lines := Lines(csvText);
            var r := ArtEventOf(csvText);
            |r.subEvents| == |lines| - 2
            && r.mainEvent == MainEventOf(Row(Art, ValueCells(lines[0]), ValueCells(lines[1])))
  {
    var lines := Lines(csvText);
    var rows := ArtRows(ValueCells(lines[0]), lines[1..]);
    assert ArtEventOf(csvText) == Assemble(rows);
    assert lines[1..][0] == lines[1];
  }

  lemma ArtSubEventOfLine(csvText: string, j: nat)
    requires j + 2 < |Lines(csvText)|
    ensures var lines := Lines(csvText);
            var r := ArtEventOf(csvText);
            j < |r.subEvents|
            && r.subEvents[j] == SubEventOf(Row(Art, ValueCells(lines[0]), ValueCells(lines[j + 2])))
  {
    var lines := Lines(csvText);
    var headers := ValueCells(lines[0]);
    assert ArtEventOf(csvText) == Assemble(ArtRows(headers, lines[1..]));
    AssembledSubEvent(headers, lines[1..], j);
    assert lines[1..][j + 1] == lines[j + 2];
  }

  lemma AssembledSubEvent(headers: seq<string>, valueLines: seq<string>, j: nat)
    requires j + 1 < |valueLines|
    ensures var r := Assemble(ArtRows(headers, valueLines));
            j < |r.subEvents| && r.subEvents[j] == SubEventOf(Row(Art, headers, ValueCells(valueLines[j + 1])))
  {
    var rows := ArtRows(headers, valueLines);
    assert rows[j + 1] == Row(Art, headers, ValueCells(valueLines[j + 1]));
    assert Assemble(rows).subEvents[j] == SubEventOf(rows[j + 1]);
  }

  /** Once a value line exists, no number of the art event is NaN. */
  lemma ArtNumbersDefined(csvText: string)
    requires |Lines(csvText)| >= 2
    ensures var r := ArtEventOf(csvText);
            r.mainEvent.totalResidents.Val? && r.mainEvent.attendedEvent.Val?
            && r.mainEvent.satisfactionPercent.Val? && r.mainEvent.duration.Val?
            && forall e :: e in r.subEvents ==>
                 e.totalResidents.Val? && e.attendedEvent.Val? && e.satisfactionPercent.Val? && e.duration.Val?
  {
    ArtEventShape(csvText);
  }

  /** A text without a line feed after trimming (the empty text among them)
      gives the fallback: NaN numbers, "N/A" date and title, no
      sub-events. */
  lemma ArtShortDocument(csvText: string)
    requires '\n' !in Trim(csvText)
    ensures ArtEventOf(csvText) == ArtFallback()
    ensures ArtEventOf(csvText).subEvents == [] && ArtEventOf(csvText).mainEvent.totalResidents == NaN
    ensures ArtEventOf("") == ArtFallback()
  {
    ShortDocument(csvText);
  }
}
