/** The browser's own table parser (`parseHtmlTableData` in the page
    script): every row after the first of the page's first table becomes a
    reading, with no filtering. Day, month and year come from the first cell
    split at `/`, hours, minutes and seconds from the second split at `:`;
    they are read as a UTC date and shifted by seven hours. */
module ChartTable {
  import opened JsString
  import opened JsNumber
  import opened Calendar
  import opened TableLocator
  import TimeString

  /** What the parser returns for one row. `date` and `utcDate` are time
      values, None for an invalid date. */
  datatype Reading = Reading(
    date: Option<int>,
    latitude: Num,
    longitude: Num,
    depth: Num,
    magnitude: Num,
    location: string,
    utcDate: Option<int>)

  /** `parts.map(Number)[k]`: past the end the value is `undefined`, which
      is NaN as a number. */
  function NumberAt(parts: seq<string>, k: nat): (r: Num)
    ensures k >= |parts| ==> r == NaN
  {
    if k < |parts| then StringToNumber(parts[k]) else NaN
  }

  /** `x - 1` on a JavaScript number. */
  function MinusOne(x: Num): Num {
    match x
    case Finite(v) => Finite(v - 1.0)
    case _ => x
  }

  /** `Date.UTC(year, month - 1, day, hour, minute, second)` from the texts
      of the date and time cells. */
  function UtcDate(dateStr: string, timeStr: string): Option<int> {
    var d := SplitOn(dateStr, '/');
    var t := SplitOn(timeStr, ':');
    DateUtc(NumberAt(d, 2), MinusOne(NumberAt(d, 1)), NumberAt(d, 0), NumberAt(t, 0), NumberAt(t, 1), NumberAt(t, 2))
  }

  /** `new Date(utcDate.getTime() + 7 * 60 * 60 * 1000)`. */
  function ThaiDate(utc: Option<int>): (r: Option<int>)
    ensures r.Some? ==> utc.Some? && r.value == utc.value + 25200000
    ensures utc.Some? && -MaxTimeValue <= utc.value <= MaxTimeValue - BangkokOffsetMs ==> r.Some?
  {
    match utc
    case None => None
    case Some(t) => TimeClip(t + BangkokOffsetMs)
  }

  /** One row: None where the source throws, because one of the first seven
      `td` cells is missing. */
  function ReadRow(row: Row): (r: Option<Reading>)
    ensures r.Some? <==> |row.td| >= 7
    ensures r.Some? ==> r.value.utcDate == UtcDate(Trim(row.td[0]), Trim(row.td[1]))
    ensures r.Some? && r.value.date.Some? ==>
      r.value.utcDate.Some? && r.value.date.value == r.value.utcDate.value + 25200000
    ensures r.Some? ==> r.value.location == Trim(row.td[6])
  {
    if |row.td| < 7 then None
    else
      var cells := row.td;
      var utcDate := UtcDate(Trim(cells[0]), Trim(cells[1]));
      Some(Reading(ThaiDate(utcDate),
                   ParseFloat(Trim(cells[2])), ParseFloat(Trim(cells[3])),
                   ParseFloat(Trim(cells[4])), ParseFloat(Trim(cells[5])),
                   Trim(cells[6]), utcDate))
  }

  /** `rows.map(...)` over the rows after the header. */
  function ReadRows(rows: seq<Row>): (r: Option<seq<Reading>>)
    ensures r.Some? <==> forall k :: 0 <= k < |rows| ==> |rows[k].td| >= 7
    ensures r.Some? ==> |r.value| == |rows|
    ensures r.Some? ==> forall k :: 0 <= k < |rows| ==> ReadRow(rows[k]) == Some(r.value[k])
  {
    if forall k :: 0 <= k < |rows| ==> |rows[k].td| >= 7 then
      Some(seq(|rows|, k requires 0 <= k < |rows| => ReadRow(rows[k]).value))
    else None
  }

  /** The parser on a page: None where it throws because the page has no
      table or a data row is short. */
  function ParseChartTable(tables: seq<Table>): (r: Option<seq<Reading>>)
    ensures tables == [] ==> r.None?
    ensures r.Some? ==> |r.value| == (if |tables[0]| == 0 then 0 else |tables[0]| - 1)
    ensures r.Some? <==> tables != [] && forall k :: 1 <= k < |tables[0]| ==> |tables[0][k].td| >= 7
    ensures r.Some? ==> forall k :: 1 <= k < |tables[0]| ==> ReadRow(tables[0][k]) == Some(r.value[k - 1])
  {
    if tables == [] then None
    else if |tables[0]| == 0 then Some([])
    else ReadRows(tables[0][1..])
  }

  // ---------------------------------------------------------------------------
  // properties

  /** A non-empty run of decimal digits. */
  predicate DigitField(s: string) {
    |s| > 0 && AllDigits(s)
  }

  /** `dd/mm/yyyy` and `hh:mm:ss` in digits give the UTC instant of that
      wall clock, for years from 100 to 9999. */
  lemma DateOfDigits(d: string, m: string, y: string, h: string, mi: string, s: string, w: WallClock)
    requires DigitField(d) && DigitField(m) && DigitField(y)
    requires DigitField(h) && DigitField(mi) && DigitField(s)
    requires w == WallClock(DigitsValue(y), DigitsValue(m), DigitsValue(d), DigitsValue(h), DigitsValue(mi), DigitsValue(s))
    requires ValidWallClock(w) && 100 <= w.year <= 9999
    ensures UtcDate(d + "/" + m + "/" + y, h + ":" + mi + ":" + s) == Some(CivilMillis(w))
  {
    FieldsOfDigits(d, m, y, '/');
    FieldsOfDigits(h, mi, s, ':');
    UtcDateOfParts(d + "/" + m + "/" + y, h + ":" + mi + ":" + s, w);
  }

  /** The date of cells whose pieces read as the fields of a wall clock. */
  lemma UtcDateOfParts(dateStr: string, timeStr: string, w: WallClock)
    requires ValidWallClock(w) && 100 <= w.year <= 9999
    requires var ds := SplitOn(dateStr, '/');
      NumberAt(ds, 0) == Finite(w.day as real) && NumberAt(ds, 1) == Finite(w.month as real)
      && NumberAt(ds, 2) == Finite(w.year as real)
    requires var ts := SplitOn(timeStr, ':');
      NumberAt(ts, 0) == Finite(w.hour as real) && NumberAt(ts, 1) == Finite(w.minute as real)
      && NumberAt(ts, 2) == Finite(w.second as real)
    ensures UtcDate(dateStr, timeStr) == Some(CivilMillis(w))
  {
    MinusOneOfInt(w.month);
    DateUtcOfWallClock(w);
  }

  /** `Date.UTC` of the fields of a valid wall clock is its UTC reading. */
  lemma DateUtcOfWallClock(w: WallClock)
    requires ValidWallClock(w) && 100 <= w.year <= 9999
    ensures DateUtc(Finite(w.year as real), Finite((w.month - 1) as real), Finite(w.day as real),
                    Finite(w.hour as real), Finite(w.minute as real), Finite(w.second as real))
         == Some(CivilMillis(w))
  {
    TruncOfInt(w.year);
    TruncOfInt(w.month - 1);
    TruncOfInt(w.day);
    TruncOfInt(w.hour);
    TruncOfInt(w.minute);
    TruncOfInt(w.second);
    var mi := w.month - 1;
    assert mi / 12 == 0 && mi % 12 == mi;
    assert MakeDay(Finite(w.year as real), Finite(mi as real), Finite(w.day as real))
        == Some(DayNumber(w.year, mi, w.day));
    assert MakeTime(Finite(w.hour as real), Finite(w.minute as real), Finite(w.second as real))
        == Some(TimeOfDayMs(w));
    DayBounds(w);
  }

  lemma MinusOneOfInt(n: int)
    ensures MinusOne(Finite(n as real)) == Finite((n - 1) as real)
  {
  }

  lemma TruncOfInt(n: int)
    ensures Trunc(n as real) == n
  {
  }

  /** The numbers of three digit strings joined by a separator. */
  lemma FieldsOfDigits(a: string, b: string, c: string, sep: char)
    requires DigitField(a) && DigitField(b) && DigitField(c) && !IsDigit(sep)
    ensures var p := SplitOn(a + [sep] + b + [sep] + c, sep);
      && NumberAt(p, 0) == Finite(DigitsValue(a) as real)
      && NumberAt(p, 1) == Finite(DigitsValue(b) as real)
      && NumberAt(p, 2) == Finite(DigitsValue(c) as real)
  {
    SplitThree(a, b, c, sep);
    StringToNumberDigits(a);
    StringToNumberDigits(b);
    StringToNumberDigits(c);
  }

  /** Three digit strings joined by a separator split back into themselves. */
  lemma SplitThree(a: string, b: string, c: string, sep: char)
    requires AllDigits(a) && AllDigits(b) && AllDigits(c) && !IsDigit(sep)
    ensures SplitOn(a + [sep] + b + [sep] + c, sep) == [a, b, c]
  {
    assert sep !in a && sep !in b && sep !in c;
    SplitOnJoined(a, b + [sep] + c, sep);
    assert a + [sep] + b + [sep] + c == a + [sep] + (b + [sep] + c);
    SplitOnJoined(b, c, sep);
    SplitOnSingle(c, sep);
  }

  /** Four-digit years keep a time value far inside the valid range. */
  lemma DayBounds(w: WallClock)
    requires ValidWallClock(w) && 100 <= w.year <= 9999
    ensures -MaxTimeValue <= CivilMillis(w) <= MaxTimeValue
  {
    var n := DayNumber(w.year, w.month - 1, w.day);
    assert -800000 <= n <= 3000000;
    assert 0 <= TimeOfDayMs(w) <= 24 * MsPerHour;
  }

  /** A date cell without `/` has no month: both dates are invalid. */
  lemma NoSlashNoDate(row: Row)
    requires |row.td| >= 7 && '/' !in Trim(row.td[0])
    ensures ReadRow(row).Some?
    ensures ReadRow(row).value.utcDate.None? && ReadRow(row).value.date.None?
  {
    SplitOnSingle(Trim(row.td[0]), '/');
  }

  /** The observatory's own date cells, the layout of the page script's
      embedded sample table (`yyyy-MM-dd HH:mm:ss yyyy-MM-dd HH:mm:ss UTC`),
      hold no `/`: every row of the sample is read with an invalid date. The
      parser's fixed positions also take the magnitude from the sixth cell,
      which in that layout is the phase count. */
  lemma BatchLayoutCellHasNoDate(row: Row, w1: WallClock, w2: WallClock)
    requires 0 <= w1.year && 0 <= w1.month && 0 <= w1.day && 0 <= w1.hour && 0 <= w1.minute && 0 <= w1.second
    requires 0 <= w2.year && 0 <= w2.month && 0 <= w2.day && 0 <= w2.hour && 0 <= w2.minute && 0 <= w2.second
    requires |row.td| >= 7
    requires row.td[0] == TimeString.IsoText(w1) + " " + TimeString.IsoText(w2) + " UTC"
    ensures ReadRow(row).Some? && ReadRow(row).value.date.None? && ReadRow(row).value.utcDate.None?
    ensures ReadRow(row).value.magnitude == ParseFloat(Trim(row.td[5]))
  {
    NoSlashInIsoText(w1);
    NoSlashInIsoText(w2);
    var cell := row.td[0];
    assert '/' !in cell;
    TrimKeepsChars(cell);
    NoSlashNoDate(row);
  }

  /** Trimming keeps only characters of the string. */
  lemma TrimKeepsChars(s: string)
    ensures forall c :: c in Trim(s) ==> c in s
  {
    var u := TrimStart(s);
    assert forall c :: c in u ==> c in s;
  }

  lemma NoSlashInIsoText(w: WallClock)
    requires 0 <= w.year && 0 <= w.month && 0 <= w.day && 0 <= w.hour && 0 <= w.minute && 0 <= w.second
    ensures '/' !in TimeString.IsoText(w)
  {
    var s := TimeString.IsoText(w);
    TimeString.IsoTextMatches(w);
    TimeString.IsoTextFields(w);
    TimeString.IsoLayoutTextFacts(s);
  }
}
