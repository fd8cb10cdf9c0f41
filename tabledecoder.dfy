/** The batch scraper's `parseHtmlTableData`: pick the table, map its
    columns, decode every row after the header into an earthquake record when
    the row passes the acceptance test, and return the records newest first;
    no table, no usable table, or no accepted row is an error. */
module TableDecoder {
  import opened JsString
  import opened JsNumber
  import opened TimeString
  import opened CellFields
  import opened Events
  import opened TableLocator

  /** `columnMap.x >= 0 && cells[x] ? cells[x].textContent.trim() : ''`. */
  function CellAt(td: seq<string>, i: int): (text: string)
    ensures text == [] || (!IsSpace(text[0]) && !IsSpace(text[|text| - 1]))
  {
    if 0 <= i < |td| then Trim(td[i]) else []
  }

  /** The texts a row's fields are read from, with the columns of `hs`. */
  function DateCell(row: Row, hs: seq<string>): string { CellAt(row.td, ColumnIndex(hs, DateTimeCol)) }
  function MagnitudeCell(row: Row, hs: seq<string>): string { CellAt(row.td, ColumnIndex(hs, MagnitudeCol)) }
  function LatitudeCell(row: Row, hs: seq<string>): string { CellAt(row.td, ColumnIndex(hs, LatitudeCol)) }
  function LongitudeCell(row: Row, hs: seq<string>): string { CellAt(row.td, ColumnIndex(hs, LongitudeCol)) }
  function DepthCell(row: Row, hs: seq<string>): string { CellAt(row.td, ColumnIndex(hs, DepthCol)) }
  function RegionCell(row: Row, hs: seq<string>): string { CellAt(row.td, ColumnIndex(hs, RegionCol)) }

  /** The instant of a row's date cell, None when it does not parse. */
  function RowTime(row: Row, hs: seq<string>, native: string -> Option<int>): Option<int> {
    ParseTimeString(ThaiDateTime(DateCell(row, hs)), native)
  }

  /** The acceptance test: at least five data cells, latitude, longitude and
      magnitude numbers, and a time. Depth plays no part. */
  predicate Accepted(row: Row, hs: seq<string>, native: string -> Option<int>) {
    && |row.td| >= 5
    && Coordinate(LatitudeCell(row, hs)) != NaN
    && Coordinate(LongitudeCell(row, hs)) != NaN
    && Magnitude(MagnitudeCell(row, hs)) != NaN
    && RowTime(row, hs, native).Some?
  }

  /** The record of one data row, or None when the row is skipped. Title and
      description are both the region text; coordinates and magnitude are
      never negative. */
  function DecodeRow(row: Row, hs: seq<string>, native: string -> Option<int>): (q: Option<Quake>)
    ensures q.Some? <==> Accepted(row, hs, native)
    ensures q.Some? ==> q.value.title == q.value.description == RegionCell(row, hs)
    ensures q.Some? ==> q.value.link == DetailLink(row.onclick)
    ensures q.Some? ==> RowTime(row, hs, native) == Some(q.value.time)
    ensures q.Some? ==> q.value.latitude >= 0.0 && q.value.longitude >= 0.0 && q.value.magnitude >= 0.0
    ensures q.Some? ==> Finite(q.value.latitude) == Coordinate(LatitudeCell(row, hs))
    ensures q.Some? ==> Finite(q.value.longitude) == Coordinate(LongitudeCell(row, hs))
    ensures q.Some? ==> Finite(q.value.magnitude) == Magnitude(MagnitudeCell(row, hs))
    ensures q.Some? ==> q.value.depth == Depth(DepthCell(row, hs))
  {
    if Accepted(row, hs, native) then
      var region := RegionCell(row, hs);
      Some(Quake(region, DetailLink(row.onclick),
                 Coordinate(LatitudeCell(row, hs)).value, Coordinate(LongitudeCell(row, hs)).value,
                 Depth(DepthCell(row, hs)), Magnitude(MagnitudeCell(row, hs)).value,
                 RowTime(row, hs, native).value, region))
    else None
  }

  /** The records a row decoder keeps, in row order. */
  function Kept(rows: seq<Row>, decode: Row -> Option<Quake>): (qs: seq<Quake>)
    ensures |qs| <= |rows|
    ensures forall q :: q in qs ==> exists k :: 0 <= k < |rows| && decode(rows[k]) == Some(q)
  {
    if rows == [] then []
    else
      var init := Kept(rows[..|rows| - 1], decode);
      match decode(rows[|rows| - 1])
      case Some(q) => init + [q]
      case None => init
  }

  lemma KeptSnoc(rows: seq<Row>, row: Row, decode: Row -> Option<Quake>)
    ensures Kept(rows + [row], decode) == Kept(rows, decode) + (if decode(row).Some? then [decode(row).value] else [])
  {
    assert (rows + [row])[..|rows|] == rows;
  }

  /** Every row the decoder accepts contributes its record. */
  lemma {:induction false} KeptComplete(rows: seq<Row>, decode: Row -> Option<Quake>)
    ensures forall k :: 0 <= k < |rows| && decode(rows[k]).Some? ==> decode(rows[k]).value in Kept(rows, decode)
  {
    if rows != [] {
      var init := rows[..|rows| - 1];
      KeptComplete(init, decode);
      forall k | 0 <= k < |rows| && decode(rows[k]).Some?
        ensures decode(rows[k]).value in Kept(rows, decode)
      {
        if k < |rows| - 1 {
          assert rows[k] == init[k];
        }
      }
    }
  }

  /** The row decoder of a header row. */
  function Decoder(hs: seq<string>, native: string -> Option<int>): Row -> Option<Quake> {
    row => DecodeRow(row, hs, native)
  }

  /** The records of the accepted rows, in row order. */
  function DecodeRows(rows: seq<Row>, hs: seq<string>, native: string -> Option<int>): seq<Quake> {
    Kept(rows, Decoder(hs, native))
  }

  /** What decoding a chosen table gives: its accepted records newest first,
      or an error when no row is accepted. The header is the first row. */
  function DecodeTable(t: Table, native: string -> Option<int>): Result<seq<Quake>>
    requires |t| > 0
  {
    var qs := DecodeRows(t[1..], t[0].th, native);
    if qs == [] then Err(NoValidEvents) else Ok(SortNewestFirst(qs))
  }

  /** The table the scan settles on: the preferred one when any table looks
      like earthquake data, else the largest. */
  predicate Chosen(tables: seq<Table>, k: nat) {
    if exists j :: 0 <= j < |tables| && LooksLikeData(tables[j])
    then FirstLargest(tables, |tables|, k, LooksLikeData)
    else FirstLargest(tables, |tables|, k, HasRows)
  }

  /** The column map's fields are the columns of the header row. */
  lemma ColumnsOf(cm: ColumnMap, hs: seq<string>)
    requires forall f :: cm.Get(f) == ColumnIndex(hs, f)
    ensures cm.dateTime == ColumnIndex(hs, DateTimeCol) && cm.magnitude == ColumnIndex(hs, MagnitudeCol)
    ensures cm.latitude == ColumnIndex(hs, LatitudeCol) && cm.longitude == ColumnIndex(hs, LongitudeCol)
    ensures cm.depth == ColumnIndex(hs, DepthCol) && cm.region == ColumnIndex(hs, RegionCol)
  {
    assert cm.Get(DateTimeCol) == ColumnIndex(hs, DateTimeCol);
    assert cm.Get(MagnitudeCol) == ColumnIndex(hs, MagnitudeCol);
    assert cm.Get(LatitudeCol) == ColumnIndex(hs, LatitudeCol);
    assert cm.Get(LongitudeCol) == ColumnIndex(hs, LongitudeCol);
    assert cm.Get(DepthCol) == ColumnIndex(hs, DepthCol);
    assert cm.Get(RegionCol) == ColumnIndex(hs, RegionCol);
  }

  /** The body of the row loop: the cells of one data row read through the
      column map; None when the row is skipped. */
  method ReadRow(row: Row, columnMap: ColumnMap, ghost hs: seq<string>, native: string -> Option<int>)
    returns (r: Option<Quake>)
    requires forall f :: columnMap.Get(f) == ColumnIndex(hs, f)
    ensures r == DecodeRow(row, hs, native)
  {
    ColumnsOf(columnMap, hs);
    var cells := row.td;
    if |cells| < 5 {
      return None;
    }
    var dateTimeCell := CellAt(cells, columnMap.dateTime);
    var magnitudeCell := CellAt(cells, columnMap.magnitude);
    var latitudeCell := CellAt(cells, columnMap.latitude);
    var longitudeCell := CellAt(cells, columnMap.longitude);
    var depthCell := CellAt(cells, columnMap.depth);
    var locationCell := CellAt(cells, columnMap.region);
    var thaiDateTime := ThaiDateTime(dateTimeCell);
    var magnitude := Magnitude(magnitudeCell);
    var latitude := Coordinate(latitudeCell);
    var longitude := Coordinate(longitudeCell);
    var depth := Depth(depthCell);
    var link := DetailLink(row.onclick);
    var timeObj := ParseTimeString(thaiDateTime, native);
    assert timeObj == RowTime(row, hs, native);
    assert latitude == Coordinate(LatitudeCell(row, hs)) && longitude == Coordinate(LongitudeCell(row, hs));
    assert magnitude == Magnitude(MagnitudeCell(row, hs)) && depth == Depth(DepthCell(row, hs));
    assert locationCell == RegionCell(row, hs);
    if latitude != NaN && longitude != NaN && magnitude != NaN && timeObj.Some? {
      r := Some(Quake(locationCell, link, latitude.value, longitude.value, depth,
                      magnitude.value, timeObj.value, locationCell));
    } else {
      r := None;
    }
  }

  /** The row loop of `parseHtmlTableData`: every row after the header is
      read through the column map and pushed when accepted. */
  method DecodeDataRows(rows: Table, columnMap: ColumnMap, native: string -> Option<int>) returns (earthquakes: seq<Quake>)
    requires |rows| > 0
    requires forall f :: columnMap.Get(f) == ColumnIndex(rows[0].th, f)
    ensures earthquakes == DecodeRows(rows[1..], rows[0].th, native)
  {
    var headerCells := rows[0].th;
    earthquakes := [];
    for i := 1 to |rows|
      invariant earthquakes == DecodeRows(rows[1..i], headerCells, native)
    {
      var row := rows[i];
      assert rows[1..i + 1] == rows[1..i] + [row];
      KeptSnoc(rows[1..i], row, Decoder(headerCells, native));
      var earthquake := ReadRow(row, columnMap, headerCells, native);
      if earthquake.Some? {
        earthquakes := earthquakes + [earthquake.value];
      }
    }
    assert rows[1..|rows|] == rows[1..];
  }

  /** `parseHtmlTableData` on a parsed page. */
  method ParseHtmlTableData(doc: Document, native: string -> Option<int>) returns (r: Result<seq<Quake>>)
    ensures TablesToScan(doc).Err? ==> r == Err(NoTables)
    ensures TablesToScan(doc).Ok? ==>
      var tables := TablesToScan(doc).value;
      if forall j :: 0 <= j < |tables| ==> |tables[j]| == 0 then r == Err(NoSuitableTable)
      else exists k :: 0 <= k < |tables| && Chosen(tables, k) && |tables[k]| > 0 && r == DecodeTable(tables[k], native)
  {
    var found := TablesToScan(doc);
    if found.Err? {
      return Err(NoTables);
    }
    var tables := found.value;
    var picked := SelectTable(tables);
    if picked.Err? {
      return Err(NoSuitableTable);
    }
    var rows := tables[picked.value];
    var headerCells := rows[0].th;
    var columnMap := BuildColumnMap(headerCells);
    var earthquakes := DecodeDataRows(rows, columnMap, native);
    if |earthquakes| == 0 {
      return Err(NoValidEvents);
    }
    return Ok(SortNewestFirst(earthquakes));
  }

  // ---------------------------------------------------------------------------
  // properties

  /** The decoder keeps nothing exactly when it accepts no row; otherwise
      sorting what it keeps gives a non-empty, newest-first permutation whose
      every record is the decoder's record of some row. */
  lemma KeptSorted(rows: seq<Row>, decode: Row -> Option<Quake>)
    ensures Kept(rows, decode) == [] <==> forall k :: 0 <= k < |rows| ==> decode(rows[k]).None?
    ensures Kept(rows, decode) != [] ==>
      var qs := SortNewestFirst(Kept(rows, decode));
      && |qs| > 0
      && NewestFirst(qs)
      && multiset(qs) == multiset(Kept(rows, decode))
      && forall q :: q in qs ==> exists k :: 0 <= k < |rows| && decode(rows[k]) == Some(q)
  {
    var kept := Kept(rows, decode);
    KeptComplete(rows, decode);
    SortIsNewestFirst(kept);
    if kept != [] {
      var sorted := SortNewestFirst(kept);
      forall q | q in sorted
        ensures exists k :: 0 <= k < |rows| && decode(rows[k]) == Some(q)
      {
        assert q in multiset(sorted);
        assert q in kept;
      }
    }
  }

  /** A chosen table fails with NoValidEvents exactly when none of its data
      rows is accepted; otherwise the result is non-empty, newest first, and
      a permutation of the accepted rows' records, each of which comes from
      a data row. */
  lemma TableResult(t: Table, native: string -> Option<int>)
    requires |t| > 0
    ensures DecodeTable(t, native) == Err(NoValidEvents)
        <==> forall k :: 1 <= k < |t| ==> !Accepted(t[k], t[0].th, native)
    ensures DecodeTable(t, native).Ok? ==>
      var qs := DecodeTable(t, native).value;
      && |qs| > 0
      && NewestFirst(qs)
      && multiset(qs) == multiset(DecodeRows(t[1..], t[0].th, native))
      && forall q :: q in qs ==> exists k :: 1 <= k < |t| && DecodeRow(t[k], t[0].th, native) == Some(q)
  {
    var rows := t[1..];
    var decode := Decoder(t[0].th, native);
    KeptSorted(rows, decode);
    NoneDecodedIff(t, native);
    var kept := Kept(rows, decode);
    assert DecodeRows(rows, t[0].th, native) == kept;
    if kept != [] {
      var sorted := SortNewestFirst(kept);
      assert DecodeTable(t, native) == Ok(sorted);
      FromDataRows(t, native, sorted);
    }
  }

  /** Records that come from the data rows come from rows 1 onwards. */
  lemma FromDataRows(t: Table, native: string -> Option<int>, qs: seq<Quake>)
    requires |t| > 0
    requires forall q :: q in qs ==> exists k :: 0 <= k < |t[1..]| && Decoder(t[0].th, native)(t[1..][k]) == Some(q)
    ensures forall q :: q in qs ==> exists k :: 1 <= k < |t| && DecodeRow(t[k], t[0].th, native) == Some(q)
  {
    var decode := Decoder(t[0].th, native);
    forall q | q in qs
      ensures exists k :: 1 <= k < |t| && DecodeRow(t[k], t[0].th, native) == Some(q)
    {
      var k := ShiftWitness(t, decode, q);
      assert DecodeRow(t[k], t[0].th, native) == decode(t[k]);
    }
  }

  /** A data row at position `k` of `t[1..]` is row `k + 1` of `t`. */
  lemma ShiftWitness(t: Table, decode: Row -> Option<Quake>, q: Quake) returns (k: nat)
    requires |t| > 0
    requires exists j :: 0 <= j < |t[1..]| && decode(t[1..][j]) == Some(q)
    ensures 1 <= k < |t| && decode(t[k]) == Some(q)
  {
    var j :| 0 <= j < |t[1..]| && decode(t[1..][j]) == Some(q);
    assert t[1..][j] == t[j + 1];
    k := j + 1;
  }

  /** The data rows all decode to nothing exactly when none is accepted. */
  lemma NoneDecodedIff(t: Table, native: string -> Option<int>)
    requires |t| > 0
    ensures (forall k :: 0 <= k < |t[1..]| ==> Decoder(t[0].th, native)(t[1..][k]).None?)
        <==> forall k :: 1 <= k < |t| ==> !Accepted(t[k], t[0].th, native)
  {
    var rows := t[1..];
    assert forall k :: 1 <= k < |t| ==> rows[k - 1] == t[k];
  }
}
