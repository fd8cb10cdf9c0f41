/** How the batch scraper finds the earthquake table in a page and which
    column holds which field. A page is a list of tables, a table a list of
    rows, and a row its header-cell texts, data-cell texts and `onclick`
    attribute. */
module TableLocator {
  import opened JsString
  import CellFields

  datatype Row = Row(th: seq<string>, td: seq<string>, onclick: Option<string>)

  type Table = seq<Row>

  /** The tables of the page, and those found by re-parsing the body's markup
      (empty when the page has no body). */
  datatype Document = Document(tables: seq<Table>, reparsed: seq<Table>)

  datatype ScrapeError = NoTables | NoSuitableTable | NoValidEvents

  datatype Result<T> = Ok(value: T) | Err(error: ScrapeError)

  /** The tables the scan looks at: the page's own, or when there are none
      those found by re-parsing the body; none at all is an error. */
  function TablesToScan(doc: Document): (r: Result<seq<Table>>)
    ensures r.Ok? ==> |r.value| > 0
    ensures r.Ok? ==> r.value == (if doc.tables != [] then doc.tables else doc.reparsed)
    ensures r.Err? <==> doc.tables == [] && doc.reparsed == []
  {
    if doc.tables != [] then Ok(doc.tables)
    else if doc.reparsed != [] then Ok(doc.reparsed)
    else Err(NoTables)
  }

  // ---------------------------------------------------------------------------
  // table selection

  /** A cell text with `°N`, `°E`, `N` or `E` in it, or a decimal `\d+\.\d+`. */
  predicate HasCoordinates(text: string) {
    || Contains(text, "°N") || Contains(text, "°E")
    || Contains(text, "N") || Contains(text, "E")
    || FirstWhere(text, 0, CellFields.DecimalAt).Some?
  }

  /** `/^\s*\d+\.\d+\s*$/`: a decimal and nothing else but white space. */
  predicate HasMagnitude(text: string) {
    var u := Trim(text);
    CellFields.DecimalAt(u, 0) && CellFields.DecimalEnd(u, 0) == |u|
  }

  /** `cellTexts.some(…)` with the coordinate test. */
  predicate AnyHasCoordinates(cells: seq<string>) {
    exists k :: 0 <= k < |cells| && HasCoordinates(cells[k])
  }

  /** `cellTexts.some(…)` with the magnitude test. */
  predicate AnyHasMagnitude(cells: seq<string>) {
    exists k :: 0 <= k < |cells| && HasMagnitude(cells[k])
  }

  /** The sampling test: the table has a second row with at least five data
      cells, one of which looks like a coordinate or one like a magnitude. */
  predicate LooksLikeData(t: Table) {
    |t| > 1 && |t[1].td| >= 5 && (AnyHasCoordinates(t[1].td) || AnyHasMagnitude(t[1].td))
  }

  predicate HasRows(t: Table) { |t| > 0 }

  /** Among the first `n` tables, table `k` passes `ok`, no table passing
      `ok` has more rows, and every earlier one passing it has fewer. */
  predicate FirstLargest(tables: seq<Table>, n: nat, k: nat, ok: Table -> bool)
    requires n <= |tables|
  {
    && k < n && ok(tables[k])
    && (forall j :: 0 <= j < n && ok(tables[j]) ==> |tables[j]| <= |tables[k]|)
    && (forall j :: 0 <= j < k && ok(tables[j]) ==> |tables[j]| < |tables[k]|)
  }

  /** The preferred scan: keeps the table with the most rows among those
      that look like earthquake data, the earliest on ties. */
  method PreferredTable(tables: seq<Table>) returns (dataTable: Option<nat>)
    ensures dataTable.None? <==> forall j :: 0 <= j < |tables| ==> !LooksLikeData(tables[j])
    ensures dataTable.Some? ==> FirstLargest(tables, |tables|, dataTable.value, LooksLikeData)
  {
    dataTable := None;
    var mostRows := 0;
    for i := 0 to |tables|
      invariant dataTable.None? ==> mostRows == 0 && forall j :: 0 <= j < i ==> !LooksLikeData(tables[j])
      invariant dataTable.Some? ==> FirstLargest(tables, i, dataTable.value, LooksLikeData)
      invariant dataTable.Some? ==> mostRows == |tables[dataTable.value]|
    {
      var rows := tables[i];
      var accept := false;
      if |rows| > mostRows {
        var sampleCells := if |rows| > 1 then rows[1].td else [];
        if |sampleCells| >= 5 {
          var hasCoordinates := AnyHasCoordinates(sampleCells);
          var hasMagnitude := AnyHasMagnitude(sampleCells);
          accept := hasCoordinates || hasMagnitude;
        }
      }
      assert accept <==> |rows| > mostRows && LooksLikeData(rows);
      ScanStep(tables, i, dataTable, mostRows, LooksLikeData, accept);
      if accept {
        dataTable := Some(i);
        mostRows := |rows|;
      }
    }
  }

  /** One step of a scan for the first largest table passing `ok`. */
  lemma ScanStep(tables: seq<Table>, i: nat, best: Option<nat>, mostRows: nat, ok: Table -> bool, accept: bool)
    requires i < |tables|
    requires forall t :: ok(t) ==> |t| > 0
    requires best.None? ==> mostRows == 0 && forall j :: 0 <= j < i ==> !ok(tables[j])
    requires best.Some? ==> FirstLargest(tables, i, best.value, ok) && mostRows == |tables[best.value]|
    requires accept <==> |tables[i]| > mostRows && ok(tables[i])
    ensures accept ==> FirstLargest(tables, i + 1, i, ok)
    ensures !accept && best.None? ==> forall j :: 0 <= j < i + 1 ==> !ok(tables[j])
    ensures !accept && best.Some? ==> FirstLargest(tables, i + 1, best.value, ok)
  {
  }

  /** The fallback scan: the first table with the most rows, if any has a row. */
  method LargestTable(tables: seq<Table>) returns (dataTable: Option<nat>)
    ensures dataTable.None? <==> forall j :: 0 <= j < |tables| ==> !HasRows(tables[j])
    ensures dataTable.Some? ==> FirstLargest(tables, |tables|, dataTable.value, HasRows)
  {
    dataTable := None;
    var mostRows := 0;
    for i := 0 to |tables|
      invariant dataTable.None? ==> mostRows == 0 && forall j :: 0 <= j < i ==> !HasRows(tables[j])
      invariant dataTable.Some? ==> FirstLargest(tables, i, dataTable.value, HasRows)
      invariant dataTable.Some? ==> mostRows == |tables[dataTable.value]|
    {
      var accept := |tables[i]| > mostRows;
      ScanStep(tables, i, dataTable, mostRows, HasRows, accept);
      if accept {
        dataTable := Some(i);
        mostRows := |tables[i]|;
      }
    }
  }

  /** The table the scraper decodes: the preferred one, else the largest,
      else an error because every table is empty. */
  method SelectTable(tables: seq<Table>) returns (r: Result<nat>)
    ensures (exists j :: 0 <= j < |tables| && LooksLikeData(tables[j])) ==>
      r.Ok? && FirstLargest(tables, |tables|, r.value, LooksLikeData)
    ensures (forall j :: 0 <= j < |tables| ==> !LooksLikeData(tables[j])) ==>
      if exists j :: 0 <= j < |tables| && HasRows(tables[j])
      then r.Ok? && FirstLargest(tables, |tables|, r.value, HasRows)
      else r == Err(NoSuitableTable)
  {
    var preferred := PreferredTable(tables);
    if preferred.Some? {
      return Ok(preferred.value);
    }
    var largest := LargestTable(tables);
    if largest.Some? {
      return Ok(largest.value);
    }
    return Err(NoSuitableTable);
  }

  // ---------------------------------------------------------------------------
  // column map

  datatype Field = DateTimeCol | MagnitudeCol | LatitudeCol | LongitudeCol | DepthCol | PhasesCol | RegionCol

  /** The column a field is taken from when no header names it: the order
      of the observatory's own table. */
  function DefaultIndex(f: Field): (i: nat)
    ensures i < 7
  {
    match f
    case DateTimeCol => 0
    case MagnitudeCol => 1
    case LatitudeCol => 2
    case LongitudeCol => 3
    case DepthCol => 4
    case PhasesCol => 5
    case RegionCol => 6
  }

  /** Header text (lower-cased) holds one of the keywords of field `f`,
      Thai or English. */
  predicate Names(h: string, f: Field) {
    match f
    case DateTimeCol => Contains(h, "วัน") || Contains(h, "origin time") || Contains(h, "date")
    case MagnitudeCol => Contains(h, "magnitude") || Contains(h, "ขนาด")
    case LatitudeCol => Contains(h, "latitude")
    case LongitudeCol => Contains(h, "longitude")
    case DepthCol => Contains(h, "depth") || Contains(h, "ลึก")
    case PhasesCol => Contains(h, "phases")
    case RegionCol => Contains(h, "region") || Contains(h, "บริเวณ") || Contains(h, "ศูนย์กลาง")
  }

  /** The field a lower-cased header text names: the first keyword group of
      the chain that occurs in it (ClassifyFirstNamed). */
  function Classify(h: string): (f: Option<Field>)
    ensures f == Some(DateTimeCol) <==> Contains(h, "วัน") || Contains(h, "origin time") || Contains(h, "date")
    ensures f.Some? && f.value != DateTimeCol ==> !Contains(h, "date") && !Contains(h, "origin time")
  {
    if Contains(h, "วัน") || Contains(h, "origin time") || Contains(h, "date") then Some(DateTimeCol)
    else if Contains(h, "magnitude") || Contains(h, "ขนาด") then Some(MagnitudeCol)
    else if Contains(h, "latitude") then Some(LatitudeCol)
    else if Contains(h, "longitude") then Some(LongitudeCol)
    else if Contains(h, "depth") || Contains(h, "ลึก") then Some(DepthCol)
    else if Contains(h, "phases") then Some(PhasesCol)
    else if Contains(h, "region") || Contains(h, "บริเวณ") || Contains(h, "ศูนย์กลาง") then Some(RegionCol)
    else None
  }

  /** Of the fields whose keywords occur in a header, the chain picks the
      first in its order, which is the default column order; no field when
      no keyword occurs. */
  lemma ClassifyFirstNamed(h: string)
    ensures forall g :: Classify(h) == Some(g) <==> Names(h, g) && forall e :: DefaultIndex(e) < DefaultIndex(g) ==> !Names(h, e)
    ensures Classify(h).None? <==> forall g :: !Names(h, g)
  {
    // a picked field comes after no named one, and no field is picked when none is named
    forall g, e | Classify(h) == Some(g) && DefaultIndex(e) < DefaultIndex(g)
      ensures !Names(h, e)
    {
      match e
      case DateTimeCol =>
      case MagnitudeCol =>
      case LatitudeCol =>
      case LongitudeCol =>
      case DepthCol =>
      case PhasesCol =>
      case RegionCol =>
    }
    forall g | Classify(h).None? ensures !Names(h, g) {
      match g
      case DateTimeCol =>
      case MagnitudeCol =>
      case LatitudeCol =>
      case LongitudeCol =>
      case DepthCol =>
      case PhasesCol =>
      case RegionCol =>
    }
    // the first named field is the one picked
    forall g | Names(h, g) && forall e :: DefaultIndex(e) < DefaultIndex(g) ==> !Names(h, e)
      ensures Classify(h) == Some(g)
    {
      assert DefaultIndex(DateTimeCol) < DefaultIndex(g) ==> !Names(h, DateTimeCol);
      assert DefaultIndex(MagnitudeCol) < DefaultIndex(g) ==> !Names(h, MagnitudeCol);
      assert DefaultIndex(LatitudeCol) < DefaultIndex(g) ==> !Names(h, LatitudeCol);
      assert DefaultIndex(LongitudeCol) < DefaultIndex(g) ==> !Names(h, LongitudeCol);
      assert DefaultIndex(DepthCol) < DefaultIndex(g) ==> !Names(h, DepthCol);
      assert DefaultIndex(PhasesCol) < DefaultIndex(g) ==> !Names(h, PhasesCol);
    }
    if forall g :: !Names(h, g) {
      assert !Names(h, DateTimeCol) && !Names(h, MagnitudeCol) && !Names(h, LatitudeCol);
      assert !Names(h, LongitudeCol) && !Names(h, DepthCol) && !Names(h, PhasesCol) && !Names(h, RegionCol);
    }
  }

  /** The last header (by position) whose lower-cased text names `f`, or -1. */
  function LastHeader(hs: seq<string>, f: Field): (r: int)
    ensures -1 <= r < |hs|
    ensures r >= 0 ==> Classify(ToLower(hs[r])) == Some(f)
    ensures forall j :: r < j < |hs| ==> Classify(ToLower(hs[j])) != Some(f)
  {
    if hs == [] then -1
    else if Classify(ToLower(hs[|hs| - 1])) == Some(f) then |hs| - 1
    else LastHeader(hs[..|hs| - 1], f)
  }

  /** The column of field `f`: the last header naming it, else its default. */
  function ColumnIndex(hs: seq<string>, f: Field): nat {
    var r := LastHeader(hs, f);
    if r >= 0 then r else DefaultIndex(f)
  }

  /** The scraper's `columnMap` object: one column index per field, -1 while
      no header has named it. */
  class ColumnMap {
    var dateTime: int
    var magnitude: int
    var latitude: int
    var longitude: int
    var depth: int
    var phases: int
    var region: int

    constructor()
      ensures forall f :: Get(f) == -1
    {
      dateTime, magnitude, latitude, longitude := -1, -1, -1, -1;
      depth, phases, region := -1, -1, -1;
    }

    function Get(f: Field): int
      reads this
    {
      match f
      case DateTimeCol => dateTime
      case MagnitudeCol => magnitude
      case LatitudeCol => latitude
      case LongitudeCol => longitude
      case DepthCol => depth
      case PhasesCol => phases
      case RegionCol => region
    }

    /** Assigns the column of one field; the others keep theirs. */
    method Set(f: Field, i: int)
      modifies this
      ensures Get(f) == i
      ensures forall g :: g != f ==> Get(g) == old(Get(g))
    {
      match f
      case DateTimeCol => dateTime := i;
      case MagnitudeCol => magnitude := i;
      case LatitudeCol => latitude := i;
      case LongitudeCol => longitude := i;
      case DepthCol => depth := i;
      case PhasesCol => phases := i;
      case RegionCol => region := i;
    }

    /** Every field still at -1 gets its default column. */
    method FillDefaults()
      modifies this
      ensures forall f :: Get(f) == if old(Get(f)) == -1 then DefaultIndex(f) else old(Get(f))
    {
      if dateTime == -1 { dateTime := 0; }
      if magnitude == -1 { magnitude := 1; }
      if latitude == -1 { latitude := 2; }
      if longitude == -1 { longitude := 3; }
      if depth == -1 { depth := 4; }
      if phases == -1 { phases := 5; }
      if region == -1 { region := 6; }
    }
  }

  /** Builds the column map from the header row's `th` texts. */
  method BuildColumnMap(headers: seq<string>) returns (cm: ColumnMap)
    ensures fresh(cm)
    ensures forall f :: cm.Get(f) == ColumnIndex(headers, f)
  {
    cm := new ColumnMap();
    for i := 0 to |headers|
      invariant forall f :: cm.Get(f) == LastHeader(headers[..i], f)
    {
      assert headers[..i + 1][..i] == headers[..i];
      var field := Classify(ToLower(headers[i]));
      if field.Some? {
        cm.Set(field.value, i);
      }
    }
    assert headers[..|headers|] == headers;
    cm.FillDefaults();
  }

  // ---------------------------------------------------------------------------
  // properties

  /** The header naming a field last is where the field is read from. */
  lemma ColumnIndexIs(hs: seq<string>, f: Field, i: nat)
    requires i < |hs| && Classify(ToLower(hs[i])) == Some(f)
    requires forall j :: i < j < |hs| ==> Classify(ToLower(hs[j])) != Some(f)
    ensures ColumnIndex(hs, f) == i
  {
  }

  /** A field no header names is read from its default column. */
  lemma ColumnIndexDefault(hs: seq<string>, f: Field)
    requires forall j :: 0 <= j < |hs| ==> Classify(ToLower(hs[j])) != Some(f)
    ensures ColumnIndex(hs, f) == DefaultIndex(f)
  {
  }

  /** The observatory's header row. */
  function StandardHeaders(): seq<string> {
    ["Origin Time", "Magnitude", "Latitude", "Longitude", "Depth", "Phases", "Region"]
  }

  lemma LowerCaseIs(s: string, t: string)
    requires |s| == |t| && forall k :: 0 <= k < |s| ==> LowerChar(s[k]) == t[k]
    ensures ToLower(s) == t
  {
  }

  lemma ClassifyOriginTime()
    ensures Classify("origin time") == Some(DateTimeCol)
  {
    assert StartsWithAt("origin time", 0, "origin time");
  }

  lemma ClassifyMagnitude()
    ensures Classify("magnitude") == Some(MagnitudeCol)
  {
    var h := "magnitude";
    NotContainsByHead(h, "วัน");
    NotContainsByHead(h, "origin time");
    NotContainsByPair(h, "date");
    assert StartsWithAt(h, 0, "magnitude");
  }

  lemma ClassifyLatitude()
    ensures Classify("latitude") == Some(LatitudeCol)
  {
    var h := "latitude";
    NotContainsByHead(h, "วัน");
    NotContainsByHead(h, "origin time");
    NotContainsByPair(h, "date");
    NotContainsByHead(h, "magnitude");
    NotContainsByHead(h, "ขนาด");
    assert StartsWithAt(h, 0, "latitude");
  }

  lemma ClassifyLongitude()
    ensures Classify("longitude") == Some(LongitudeCol)
  {
    var h := "longitude";
    NotContainsByHead(h, "วัน");
    NotContainsByHead(h, "origin time");
    NotContainsByPair(h, "date");
    NotContainsByHead(h, "magnitude");
    NotContainsByHead(h, "ขนาด");
    NotContainsByPair(h, "latitude");
    assert StartsWithAt(h, 0, "longitude");
  }

  lemma ClassifyDepth()
    ensures Classify("depth") == Some(DepthCol)
  {
    var h := "depth";
    NotContainsByHead(h, "วัน");
    NotContainsByHead(h, "origin time");
    NotContainsByPair(h, "date");
    NotContainsByHead(h, "magnitude");
    NotContainsByHead(h, "ขนาด");
    NotContainsByHead(h, "latitude");
    NotContainsByHead(h, "longitude");
    assert StartsWithAt(h, 0, "depth");
  }

  lemma ClassifyPhases()
    ensures Classify("phases") == Some(PhasesCol)
  {
    var h := "phases";
    NotContainsByHead(h, "วัน");
    NotContainsByHead(h, "origin time");
    NotContainsByHead(h, "date");
    NotContainsByHead(h, "magnitude");
    NotContainsByHead(h, "ขนาด");
    NotContainsByHead(h, "latitude");
    NotContainsByHead(h, "longitude");
    NotContainsByHead(h, "depth");
    NotContainsByHead(h, "ลึก");
    assert StartsWithAt(h, 0, "phases");
  }

  lemma ClassifyRegion()
    ensures Classify("region") == Some(RegionCol)
  {
    var h := "region";
    NotContainsByHead(h, "วัน");
    NotContainsByHead(h, "origin time");
    NotContainsByHead(h, "date");
    NotContainsByHead(h, "magnitude");
    NotContainsByHead(h, "ขนาด");
    NotContainsByHead(h, "latitude");
    NotContainsByHead(h, "longitude");
    NotContainsByHead(h, "depth");
    NotContainsByHead(h, "ลึก");
    NotContainsByHead(h, "phases");
    assert StartsWithAt(h, 0, "region");
  }

  /** The observatory's own header row maps every field to its default
      column: the defaults are that row's order. */
  lemma StandardHeadersIdentity(f: Field)
    ensures ColumnIndex(StandardHeaders(), f) == DefaultIndex(f)
  {
    var cls := [DateTimeCol, MagnitudeCol, LatitudeCol, LongitudeCol, DepthCol, PhasesCol, RegionCol];
    StandardClassified(StandardHeaders(), cls);
    assert forall j :: 0 <= j < |cls| ==> DefaultIndex(cls[j]) == j;
    HeadersInDefaultOrder(StandardHeaders(), cls, f);
  }

  /** Headers that name the fields in their default order put every field
      in its default column. */
  lemma HeadersInDefaultOrder(hs: seq<string>, cls: seq<Field>, f: Field)
    requires |hs| == |cls| == 7
    requires forall k :: 0 <= k < |hs| ==> Classify(ToLower(hs[k])) == Some(cls[k])
    requires forall k :: 0 <= k < |cls| ==> DefaultIndex(cls[k]) == k
    ensures ColumnIndex(hs, f) == DefaultIndex(f)
  {
    var i := DefaultIndex(f);
    forall j | i < j < |hs| ensures Classify(ToLower(hs[j])) != Some(f) {
      assert DefaultIndex(cls[j]) != i;
    }
    assert Classify(ToLower(hs[i])) == Some(f) by {
      assert cls[i] == f by {
        match f
        case DateTimeCol =>
        case MagnitudeCol =>
        case LatitudeCol =>
        case LongitudeCol =>
        case DepthCol =>
        case PhasesCol =>
        case RegionCol =>
      }
    }
    ColumnIndexIs(hs, f, i);
  }

  lemma StandardClassified(hs: seq<string>, cls: seq<Field>)
    requires hs == StandardHeaders()
    requires cls == [DateTimeCol, MagnitudeCol, LatitudeCol, LongitudeCol, DepthCol, PhasesCol, RegionCol]
    ensures |hs| == |cls|
    ensures forall k :: 0 <= k < |hs| ==> Classify(ToLower(hs[k])) == Some(cls[k])
  {
    forall k | 0 <= k < |hs| ensures Classify(ToLower(hs[k])) == Some(cls[k]) {
      if k == 0 { HeaderOriginTime(); }
      else if k == 1 { HeaderMagnitude(); }
      else if k == 2 { HeaderLatitude(); }
      else if k == 3 { HeaderLongitude(); }
      else if k == 4 { HeaderDepth(); }
      else if k == 5 { HeaderPhases(); }
      else { HeaderRegion(); }
    }
  }

  // The page's headers, lower-cased, name their columns.
  lemma HeaderOriginTime()
    ensures Classify(ToLower("Origin Time")) == Some(DateTimeCol)
  {
    LowerCaseIs("Origin Time", "origin time");
    ClassifyOriginTime();
  }

  lemma HeaderMagnitude()
    ensures Classify(ToLower("Magnitude")) == Some(MagnitudeCol)
  {
    LowerCaseIs("Magnitude", "magnitude");
    ClassifyMagnitude();
  }

  lemma HeaderLatitude()
    ensures Classify(ToLower("Latitude")) == Some(LatitudeCol)
  {
    LowerCaseIs("Latitude", "latitude");
    ClassifyLatitude();
  }

  lemma HeaderLongitude()
    ensures Classify(ToLower("Longitude")) == Some(LongitudeCol)
  {
    LowerCaseIs("Longitude", "longitude");
    ClassifyLongitude();
  }

  lemma HeaderDepth()
    ensures Classify(ToLower("Depth")) == Some(DepthCol)
  {
    LowerCaseIs("Depth", "depth");
    ClassifyDepth();
  }

  lemma HeaderPhases()
    ensures Classify(ToLower("Phases")) == Some(PhasesCol)
  {
    LowerCaseIs("Phases", "phases");
    ClassifyPhases();
  }

  lemma HeaderRegion()
    ensures Classify(ToLower("Region")) == Some(RegionCol)
  {
    LowerCaseIs("Region", "region");
    ClassifyRegion();
  }

  /** A cell that passes the magnitude test holds a decimal, so it passes
      the coordinate test too. */
  lemma MagnitudeShapeHasDecimal(text: string)
    requires HasMagnitude(text)
    ensures HasCoordinates(text)
  {
    var n := LeadingSpaces(text);
    var u := Trim(text);
    assert u == text[n..n + |u|] by {
      assert u == text[n..][..|u|];
    }
    DecimalInSlice(text, n, n + |u|);
    FirstWhereSome(text, 0, CellFields.DecimalAt, n);
  }

  /** A decimal at the start of a slice is a decimal where the slice starts. */
  lemma DecimalInSlice(s: string, lo: nat, hi: nat)
    requires lo <= hi <= |s| && CellFields.DecimalAt(s[lo..hi], 0)
    ensures CellFields.DecimalAt(s, lo)
  {
    var u := s[lo..hi];
    var e := RunEnd(u, 0, IsDigit);
    forall k | lo <= k < lo + e ensures IsDigit(s[k]) {
      assert s[k] == u[k - lo];
    }
    assert s[lo + e] == u[e] && s[lo + e + 1] == u[e + 1] && s[lo] == u[0];
    RunEndIs(s, lo, IsDigit, lo + e);
  }

  /** The magnitude test never decides the sampling test: a table looks like
      earthquake data exactly when its second row has five cells and one of
      them passes the coordinate test. */
  lemma LooksLikeDataByCoordinates(t: Table)
    ensures LooksLikeData(t) <==> |t| > 1 && |t[1].td| >= 5 && AnyHasCoordinates(t[1].td)
  {
    if |t| > 1 && AnyHasMagnitude(t[1].td) {
      var k :| 0 <= k < |t[1].td| && HasMagnitude(t[1].td[k]);
      MagnitudeShapeHasDecimal(t[1].td[k]);
    }
  }
}
