/** The batch scraper's time normaliser (`parseTimeString`) and the way a
    date cell holding "Thai time, UTC time" is cut down to its Thai part.
    Date shapes of the regular expressions and Luxon's fixed layouts are
    written as templates of digit slots and literal characters. */
module TimeString {
  import opened JsString
  import opened JsNumber
  import opened Calendar

  /** One position of a fixed layout: `\d`, the blank that Luxon's ` ` token
      accepts (white space other than CR and LF), or a literal character. */
  datatype Slot = AnyDigit | Blank | Lit(c: char)

  predicate SlotMatches(c: char, slot: Slot) {
    match slot
    case AnyDigit => IsDigit(c)
    case Blank => IsSpace(c) && c != '\n' && c != '\r'
    case Lit(x) => c == x
  }

  /** `s` holds the layout `t` starting at position `i`. */
  predicate MatchesAt(s: string, i: nat, t: seq<Slot>) {
    i + |t| <= |s| && forall k :: 0 <= k < |t| ==> SlotMatches(s[i + k], t[k])
  }

  /** The unanchored test `t.test(s)`: the layout occurs somewhere in `s`. */
  predicate Occurs(s: string, t: seq<Slot>) {
    exists i :: 0 <= i <= |s| && MatchesAt(s, i, t)
  }

  function DigitSlots(n: nat): (t: seq<Slot>)
    ensures |t| == n && forall k :: 0 <= k < n ==> t[k] == AnyDigit
  {
    seq(n, _ => AnyDigit)
  }

  /** `\d{4}-\d{2}-\d{2}` */
  function IsoDate(): seq<Slot> {
    DigitSlots(4) + [Lit('-')] + DigitSlots(2) + [Lit('-')] + DigitSlots(2)
  }

  /** `\d{2}\/\d{2}\/\d{4}` */
  function EuroDate(): seq<Slot> {
    DigitSlots(2) + [Lit('/')] + DigitSlots(2) + [Lit('/')] + DigitSlots(4)
  }

  /** ` HH:mm:ss` */
  function ClockTime(): seq<Slot> {
    [Blank] + DigitSlots(2) + [Lit(':')] + DigitSlots(2) + [Lit(':')] + DigitSlots(2)
  }

  /** Luxon's `yyyy-MM-dd HH:mm:ss`. */
  function IsoLayout(): seq<Slot> { IsoDate() + ClockTime() }

  /** Luxon's `dd/MM/yyyy HH:mm:ss`. */
  function EuroLayout(): seq<Slot> { EuroDate() + ClockTime() }

  /** A match of a layout gives digits in its digit slots. */
  lemma MatchedDigits(s: string, i: nat, t: seq<Slot>, lo: nat, hi: nat)
    requires MatchesAt(s, i, t) && lo <= hi <= |t|
    requires forall k :: lo <= k < hi ==> t[k] == AnyDigit
    ensures AllDigits(s[i + lo..i + hi])
  {
    var sl := s[i + lo..i + hi];
    forall k | 0 <= k < |sl| ensures IsDigit(sl[k]) {
      assert sl[k] == s[i + lo + k];
      assert SlotMatches(s[i + lo + k], t[lo + k]);
    }
  }

  /** The wall clock a whole-string match of a layout spells, `euro` choosing
      day-month-year order; the field values are read from the digit slots. */
  function ReadLayout(s: string, euro: bool): (w: Option<WallClock>)
    ensures w.Some? <==> |s| == 19 && MatchesAt(s, 0, if euro then EuroLayout() else IsoLayout())
  {
    var t := if euro then EuroLayout() else IsoLayout();
    if |s| == 19 && MatchesAt(s, 0, t) then
      MatchedDigits(s, 0, t, 11, 13);
      MatchedDigits(s, 0, t, 14, 16);
      MatchedDigits(s, 0, t, 17, 19);
      if euro then
        MatchedDigits(s, 0, t, 0, 2);
        MatchedDigits(s, 0, t, 3, 5);
        MatchedDigits(s, 0, t, 6, 10);
        Some(WallClock(DigitsValue(s[6..10]), DigitsValue(s[3..5]), DigitsValue(s[0..2]),
                       DigitsValue(s[11..13]), DigitsValue(s[14..16]), DigitsValue(s[17..19])))
      else
        MatchedDigits(s, 0, t, 0, 4);
        MatchedDigits(s, 0, t, 5, 7);
        MatchedDigits(s, 0, t, 8, 10);
        Some(WallClock(DigitsValue(s[0..4]), DigitsValue(s[5..7]), DigitsValue(s[8..10]),
                       DigitsValue(s[11..13]), DigitsValue(s[14..16]), DigitsValue(s[17..19])))
    else None
  }

  /** `DateTime.fromFormat(s, layout, { zone: 'Asia/Bangkok' }).toJSDate()`,
      None standing for the invalid date: the whole text must fit the layout
      and name a real calendar time. */
  function FromLayout(s: string, euro: bool): (r: Option<int>)
    ensures r.Some? ==> exists w :: ReadLayout(s, euro) == Some(w) && ValidWallClock(w) && r.value == BangkokInstant(w)
  {
    match ReadLayout(s, euro)
    case Some(w) => if ValidWallClock(w) then Some(BangkokInstant(w)) else None
    case None => None
  }

  // ---------------------------------------------------------------------------
  // markers

  /** A match of `UTC|GMT` at `i`. */
  predicate UtcOrGmtAt(s: string, i: nat) {
    StartsWithAt(s, i, "UTC") || StartsWithAt(s, i, "GMT")
  }

  /** A match of `UTC|GMT|\+0700` at `i`. */
  predicate ZoneMarkerAt(s: string, i: nat) {
    UtcOrGmtAt(s, i) || StartsWithAt(s, i, "+0700")
  }

  /** `s.split(/UTC|GMT/)[0]` when the marker occurs: the text before its
      leftmost match. */
  function FirstUtcOrGmt(s: string): (r: Option<nat>)
    ensures r.Some? ==> r.value <= |s| && UtcOrGmtAt(s, r.value)
    ensures forall j :: 0 <= j <= |s| && (r.None? || j < r.value) ==> !UtcOrGmtAt(s, j)
  {
    FirstWhere(s, 0, UtcOrGmtAt)
  }

  /** The part of a time string the normaliser parses: white space collapsed
      and trimmed, then everything from the first `UTC` or `GMT` cut off. The
      part is trimmed and collapsed and holds neither marker. */
  function DateTimePart(s: string): (part: string)
    ensures part == [] || (!IsSpace(part[0]) && !IsSpace(part[|part| - 1]))
    ensures Collapsed(part)
    ensures FirstUtcOrGmt(part) == None
  {
    CollapseIsCollapsed(s);
    TrimCollapsed(Collapse(s));
    var cleaned := Trim(Collapse(s));
    match FirstUtcOrGmt(cleaned)
    case None => cleaned
    case Some(p) =>
      BeforeFirstMarker(cleaned, p);
      CollapsedSlice(cleaned, 0, p);
      TrimCollapsed(cleaned[..p]);
      TrimMarkerFree(cleaned[..p]);
      Trim(cleaned[..p])
  }

  /** The text before the leftmost marker holds no marker. */
  lemma BeforeFirstMarker(s: string, p: nat)
    requires FirstUtcOrGmt(s) == Some(p)
    ensures FirstUtcOrGmt(s[..p]) == None
  {
    var x := s[..p];
    forall j | 0 <= j <= |x| ensures !UtcOrGmtAt(x, j) {
      if j + 3 <= |x| {
        assert x[j..j + 3] == s[j..j + 3];
        assert j < p && !UtcOrGmtAt(s, j);
      }
    }
    FirstWhereNone(x, 0, UtcOrGmtAt);
  }

  /** `parseTimeString`: an ISO-looking part is read with the
      `yyyy-MM-dd HH:mm:ss` layout, a European-looking one with
      `dd/MM/yyyy HH:mm:ss`, anything else by the host's `Date` parser
      (`native`, None for an invalid date); failure gives None (null). */
  function ParseTimeString(s: string, native: string -> Option<int>): (r: Option<int>)
    ensures var p := DateTimePart(s);
      (Occurs(p, IsoDate()) || Occurs(p, EuroDate())) && |p| != 19 ==> r.None?
    ensures var p := DateTimePart(s);
      r.Some? && Occurs(p, IsoDate()) ==> exists w :: ValidWallClock(w) && r.value == BangkokInstant(w)
  {
    var part := DateTimePart(s);
    if Occurs(part, IsoDate()) then FromLayout(part, false)
    else if Occurs(part, EuroDate()) then FromLayout(part, true)
    else native(part)
  }

  // ---------------------------------------------------------------------------
  // the date-time cell of a table row

  /** A match of `\s+\d{4}-\d{2}-\d{2}` at `i`: white space at `i`, and an ISO
      date right where that run of white space ends (a date starts with a
      digit, so the run can only end there). */
  predicate SpacedIsoDateAt(s: string, i: nat) {
    i < |s| && IsSpace(s[i]) && MatchesAt(s, RunEnd(s, i, IsSpace), IsoDate())
  }

  /** `/\d{4}-\d{2}-\d{2}.*\d{4}-\d{2}-\d{2}/.test(s)`: an ISO date, and a
      second one starting after the first ends with no line break between. */
  predicate TwoIsoDates(s: string) {
    exists i, j :: 0 <= i && i + 10 <= j <= |s| && MatchesAt(s, i, IsoDate()) && MatchesAt(s, j, IsoDate())
      && forall k :: i + 10 <= k < j ==> !IsLineTerminator(s[k])
  }

  /** The Thai date-time text of a row's date cell (`cellText`, before its
      `trim`): everything from the first `UTC`, `GMT` or `+0700` cut off and
      trimmed; then, when two ISO dates remain, the text before the first
      white space that leads into an ISO date, trimmed. */
  function ThaiDateTime(cellText: string): (r: string)
    ensures r == [] || (!IsSpace(r[0]) && !IsSpace(r[|r| - 1]))
    ensures |r| <= |cellText|
  {
    FirstDate(BeforeZone(Trim(cellText)))
  }

  /** The trimmed text before the first zone marker, or all of it. */
  function BeforeZone(cell: string): (r: string)
    requires cell == [] || (!IsSpace(cell[0]) && !IsSpace(cell[|cell| - 1]))
    ensures r == [] || (!IsSpace(r[0]) && !IsSpace(r[|r| - 1]))
    ensures |r| <= |cell|
  {
    match FirstWhere(cell, 0, ZoneMarkerAt)
    case Some(p) => Trim(cell[..p])
    case None => cell
  }

  /** With two ISO dates, the trimmed text before the white space that leads
      into the first date after the start; otherwise the text itself. */
  function FirstDate(t: string): (r: string)
    requires t == [] || (!IsSpace(t[0]) && !IsSpace(t[|t| - 1]))
    ensures r == [] || (!IsSpace(r[0]) && !IsSpace(r[|r| - 1]))
    ensures |r| <= |t|
  {
    if TwoIsoDates(t) then
      match FirstWhere(t, 0, SpacedIsoDateAt)
      case Some(p) => Trim(t[..p])
      case None => Trim(t)
    else t
  }

  // ---------------------------------------------------------------------------
  // the layouts position by position

  /** Position `k` of `yyyy-MM-dd HH:mm:ss`. */
  lemma IsoLayoutAt(k: nat)
    requires k < 19
    ensures |IsoLayout()| == 19
    ensures IsoLayout()[k] ==
      if k == 4 || k == 7 then Lit('-') else if k == 10 then Blank
      else if k == 13 || k == 16 then Lit(':') else AnyDigit
  {
    assert |IsoDate()| == 10 && |ClockTime()| == 9;
    if k < 10 {
      assert IsoLayout()[k] == IsoDate()[k];
    } else {
      assert IsoLayout()[k] == ClockTime()[k - 10];
    }
  }

  /** Position `k` of `dd/MM/yyyy HH:mm:ss`. */
  lemma EuroLayoutAt(k: nat)
    requires k < 19
    ensures |EuroLayout()| == 19
    ensures EuroLayout()[k] ==
      if k == 2 || k == 5 then Lit('/') else if k == 10 then Blank
      else if k == 13 || k == 16 then Lit(':') else AnyDigit
  {
    assert |EuroDate()| == 10 && |ClockTime()| == 9;
    if k < 10 {
      assert EuroLayout()[k] == EuroDate()[k];
    } else {
      assert EuroLayout()[k] == ClockTime()[k - 10];
    }
  }

  /** A text that fits the ISO layout also holds an ISO date at its start. */
  lemma IsoLayoutHasIsoDate(s: string)
    requires MatchesAt(s, 0, IsoLayout())
    ensures MatchesAt(s, 0, IsoDate()) && Occurs(s, IsoDate())
  {
    assert |IsoDate()| == 10;
    forall k | 0 <= k < 10 ensures SlotMatches(s[k], IsoDate()[k]) {
      assert IsoLayout()[k] == IsoDate()[k];
    }
  }

  // ---------------------------------------------------------------------------
  // writing a wall clock in the ISO layout

  function DigitChar(d: nat): (c: char)
    requires d < 10
    ensures IsDigit(c) && DigitValue(c) == d
  {
    ('0' as int + d) as char
  }

  /** The last `width` decimal digits of `n`, zero-padded on the left. */
  function Pad(n: nat, width: nat): (r: string)
    ensures |r| == width && AllDigits(r)
    ensures n < Pow10(width) ==> DigitsValue(r) == n
  {
    if width == 0 then []
    else
      var r := Pad(n / 10, width - 1) + [DigitChar(n % 10)];
      assert r[..|r| - 1] == Pad(n / 10, width - 1);
      r
  }

  /** `yyyy-MM-dd` of a date whose fields fit their widths. */
  function DateText(y: nat, m: nat, d: nat): (s: string)
    ensures |s| == 10
    ensures s[0..4] == Pad(y, 4) && s[5..7] == Pad(m, 2) && s[8..10] == Pad(d, 2)
    ensures s[4] == '-' && s[7] == '-'
  {
    var a, b, c := Pad(y, 4), Pad(m, 2), Pad(d, 2);
    var s := a + "-" + b + "-" + c;
    assert s[0..4] == a && s[5..7] == b && s[8..10] == c;
    s
  }

  /** ` HH:mm:ss` of a time of day whose fields fit their widths. */
  function TimeText(h: nat, m: nat, sec: nat): (s: string)
    ensures |s| == 9
    ensures s[1..3] == Pad(h, 2) && s[4..6] == Pad(m, 2) && s[7..9] == Pad(sec, 2)
    ensures s[0] == ' ' && s[3] == ':' && s[6] == ':'
  {
    var a, b, c := Pad(h, 2), Pad(m, 2), Pad(sec, 2);
    var s := " " + a + ":" + b + ":" + c;
    assert s[1..3] == a && s[4..6] == b && s[7..9] == c;
    s
  }

  /** `toFormat('yyyy-MM-dd HH:mm:ss')` of a wall clock whose fields fit
      their widths. */
  function IsoText(w: WallClock): (s: string)
    requires 0 <= w.year && 0 <= w.month && 0 <= w.day
    requires 0 <= w.hour && 0 <= w.minute && 0 <= w.second
    ensures |s| == 19
  {
    DateText(w.year, w.month, w.day) + TimeText(w.hour, w.minute, w.second)
  }

  /** The fields of an ISO text sit where the layout reads them. */
  lemma IsoTextFields(w: WallClock)
    requires 0 <= w.year && 0 <= w.month && 0 <= w.day
    requires 0 <= w.hour && 0 <= w.minute && 0 <= w.second
    ensures var s := IsoText(w);
      && s[0..4] == Pad(w.year, 4) && s[5..7] == Pad(w.month, 2) && s[8..10] == Pad(w.day, 2)
      && s[11..13] == Pad(w.hour, 2) && s[14..16] == Pad(w.minute, 2) && s[17..19] == Pad(w.second, 2)
      && s[4] == '-' && s[7] == '-' && s[10] == ' ' && s[13] == ':' && s[16] == ':'
  {
    var d, t := DateText(w.year, w.month, w.day), TimeText(w.hour, w.minute, w.second);
    var s := d + t;
    assert s[0..4] == d[0..4] && s[5..7] == d[5..7] && s[8..10] == d[8..10];
    assert s[11..13] == t[1..3] && s[14..16] == t[4..6] && s[17..19] == t[7..9];
  }

  /** An ISO text fits the ISO layout. */
  lemma IsoTextMatches(w: WallClock)
    requires 0 <= w.year && 0 <= w.month && 0 <= w.day
    requires 0 <= w.hour && 0 <= w.minute && 0 <= w.second
    ensures MatchesAt(IsoText(w), 0, IsoLayout())
  {
    var s := IsoText(w);
    IsoTextFields(w);
    forall k | 0 <= k < 19 ensures SlotMatches(s[k], IsoLayout()[k]) {
      IsoLayoutAt(k);
      if k < 4 { assert s[k] == s[0..4][k]; }
      else if 5 <= k < 7 { assert s[k] == s[5..7][k - 5]; }
      else if 8 <= k < 10 { assert s[k] == s[8..10][k - 8]; }
      else if 11 <= k < 13 { assert s[k] == s[11..13][k - 11]; }
      else if 14 <= k < 16 { assert s[k] == s[14..16][k - 14]; }
      else if 17 <= k < 19 { assert s[k] == s[17..19][k - 17]; }
    }
  }

  /** Reading an ISO text back with the ISO layout gives the wall clock. */
  lemma ReadIsoText(w: WallClock)
    requires 0 <= w.year < 10000 && 0 <= w.month < 100 && 0 <= w.day < 100
    requires 0 <= w.hour < 100 && 0 <= w.minute < 100 && 0 <= w.second < 100
    ensures ReadLayout(IsoText(w), false) == Some(w)
  {
    IsoTextMatches(w);
    IsoTextFields(w);
  }

  // ---------------------------------------------------------------------------
  // properties of the normaliser

  /** Text that has no `U` and no `G` holds no `UTC` and no `GMT`. */
  lemma NoUtcOrGmt(s: string)
    requires forall k :: 0 <= k < |s| ==> s[k] != 'U' && s[k] != 'G'
    ensures FirstUtcOrGmt(s) == None
  {
    forall j | 0 <= j <= |s| ensures !UtcOrGmtAt(s, j) {
      if StartsWithAt(s, j, "UTC") { StartsWithAtHead(s, j, "UTC"); }
      if StartsWithAt(s, j, "GMT") { StartsWithAtHead(s, j, "GMT"); }
    }
  }

  /** A text already in normal form, without `UTC` or `GMT`, is its own
      date-time part. */
  lemma DateTimePartOfClean(s: string)
    requires Collapsed(s) && s != [] && !IsSpace(s[0]) && !IsSpace(s[|s| - 1])
    requires forall k :: 0 <= k < |s| ==> s[k] != 'U' && s[k] != 'G'
    ensures DateTimePart(s) == s
  {
    CollapseFixesCollapsed(s);
    TrimNoop(s);
    NoUtcOrGmt(s);
  }

  /** What a text that fits the ISO layout with a plain space is made of. */
  lemma IsoLayoutTextFacts(s: string)
    requires |s| == 19 && MatchesAt(s, 0, IsoLayout()) && s[10] == ' '
    ensures Collapsed(s) && !IsSpace(s[0]) && !IsSpace(s[18])
    ensures forall k :: 0 <= k < |s| ==> s[k] != 'U' && s[k] != 'G' && s[k] != '+'
    ensures forall k :: 0 <= k < |s| && k != 10 ==> !IsSpace(s[k])
    ensures forall k :: 0 <= k < |s| ==> !IsLineTerminator(s[k])
    ensures forall k :: 0 <= k < |s| && k != 4 && k != 7 && k != 10 && k != 13 && k != 16 ==> IsDigit(s[k])
  {
    forall k | 0 <= k < 19
      ensures s[k] != 'U' && s[k] != 'G' && s[k] != '+' && (k != 10 ==> !IsSpace(s[k]))
      ensures k != 4 && k != 7 && k != 10 && k != 13 && k != 16 ==> IsDigit(s[k])
    {
      IsoLayoutAt(k);
      assert SlotMatches(s[k], IsoLayout()[k]);
    }
    IsoLayoutAt(0);
    IsoLayoutAt(18);
  }

  /** Round trip: a Bangkok wall clock written `yyyy-MM-dd HH:mm:ss` is read
      back as the instant seven hours before the same reading in UTC. */
  lemma ParseIsoText(w: WallClock, native: string -> Option<int>)
    requires ValidWallClock(w) && 0 <= w.year < 10000
    ensures 0 <= w.hour && 0 <= w.minute && 0 <= w.second
    ensures ParseTimeString(IsoText(w), native) == Some(BangkokInstant(w))
  {
    var s := IsoText(w);
    IsoTextMatches(w);
    IsoTextFields(w);
    IsoLayoutTextFacts(s);
    DateTimePartOfClean(s);
    IsoLayoutHasIsoDate(s);
    ReadIsoText(w);
  }

  /** Only the collapsed form of a text matters: a run of white space of
      any kind and length reads as one plain space. */
  lemma DateTimePartOfCollapse(s: string, native: string -> Option<int>)
    ensures DateTimePart(Collapse(s)) == DateTimePart(s)
    ensures ParseTimeString(Collapse(s), native) == ParseTimeString(s, native)
  {
    var c := Collapse(s);
    assert Collapse(c) == c by {
      CollapseIsCollapsed(s);
      CollapseFixesCollapsed(c);
    }
    assert DateTimePart(c) == DateTimePart(s);
  }

  /** Everything from the first `UTC` or `GMT` on is ignored: after any text
      whose collapsed form holds neither marker, the marker and whatever
      follows it make no difference. */
  lemma ParseIgnoresFromMarker(s: string, m: string, tail: string, native: string -> Option<int>)
    requires FirstUtcOrGmt(Collapse(s)) == None
    requires m == "UTC" || m == "GMT"
    ensures ParseTimeString(s + m + tail, native) == ParseTimeString(s, native)
  {
    DateTimePartSuffix(s, m, tail);
  }

  /** A marker and what follows it leave the date-time part of the text
      before it as it is. */
  lemma DateTimePartSuffix(s: string, m: string, tail: string)
    requires FirstUtcOrGmt(Collapse(s)) == None
    requires m == "UTC" || m == "GMT"
    ensures DateTimePart(s + m + tail) == DateTimePart(s)
  {
    var x := TrimStart(Collapse(s));
    var cleaned := Trim(Collapse(s + m + tail));
    SuffixMarker(s, m, tail);
    assert cleaned[..|x|] == x by {
      CleanedWithMarker(s, m, tail);
    }
    assert DateTimePart(s) == Trim(x) by {
      TrimStartNoop(x);
      CleanedWithoutMarker(s);
    }
  }

  /** The first marker of the normalised text is the one after `s`. */
  lemma SuffixMarker(s: string, m: string, tail: string)
    requires FirstUtcOrGmt(Collapse(s)) == None
    requires m == "UTC" || m == "GMT"
    ensures FirstUtcOrGmt(Trim(Collapse(s + m + tail))) == Some(|TrimStart(Collapse(s))|)
  {
    var x := TrimStart(Collapse(s));
    var rest := m + TrimEnd(Collapse(tail));
    CleanedWithMarker(s, m, tail);
    TrimStartMarkerFree(Collapse(s));
    MarkerStartsRest(m, TrimEnd(Collapse(tail)));
    FirstMarkerAfter(x, rest);
  }

  lemma TrimStartMarkerFree(c: string)
    requires FirstUtcOrGmt(c) == None
    ensures FirstUtcOrGmt(TrimStart(c)) == None
  {
    var n := LeadingSpaces(c);
    assert TrimStart(c) == c[n..|c|];
    MarkerFreeSlice(c, n, |c|);
  }

  lemma MarkerStartsRest(m: string, t: string)
    requires m == "UTC" || m == "GMT"
    ensures StartsWithAt(m + t, 0, "UTC") || StartsWithAt(m + t, 0, "GMT")
  {
    assert (m + t)[0..3] == m;
  }

  /** Normalising the text with the marker keeps the marker right after the
      normalised text before it. */
  lemma CleanedWithMarker(s: string, m: string, tail: string)
    requires m == "UTC" || m == "GMT"
    ensures Trim(Collapse(s + m + tail)) == TrimStart(Collapse(s)) + (m + TrimEnd(Collapse(tail)))
  {
    var c := Collapse(s);
    CollapseBeforeMarker(s, m, tail);
    var ct := Collapse(tail);
    MarkerLettersOnly(m);
    assert (m + ct)[0] == m[0];
    TrimStartAppend(c, m + ct);
    TrimEndRight(TrimStart(c), m + ct);
    TrimEndAppend(m, ct);
  }

  lemma CollapseBeforeMarker(s: string, m: string, tail: string)
    requires m == "UTC" || m == "GMT"
    ensures Collapse(s + m + tail) == Collapse(s) + (m + Collapse(tail))
  {
    assert s + m + tail == s + (m + tail);
    MarkerLettersOnly(m);
    assert (m + tail)[0] == m[0];
    CollapseAppend(s, m + tail);
    CollapseNoSpacesPrefix(m, tail);
  }

  lemma MarkerLettersOnly(m: string)
    requires m == "UTC" || m == "GMT"
    ensures |m| == 3 && NoSpaces(m)
  {
    assert |m| == 3;
    forall k | 0 <= k < 3 ensures !IsSpace(m[k]) {
      assert m[k] in "UTCGM";
    }
  }

  /** In `x + rest`, with `x` marker-free and `rest` starting with a marker,
      the first marker is at `|x|`. */
  lemma FirstMarkerAfter(x: string, rest: string)
    requires FirstUtcOrGmt(x) == None
    requires StartsWithAt(rest, 0, "UTC") || StartsWithAt(rest, 0, "GMT")
    ensures FirstUtcOrGmt(x + rest) == Some(|x|)
  {
    var c := x + rest;
    assert UtcOrGmtAt(c, |x|) by {
      assert c[|x|..|x| + 3] == rest[0..3];
    }
    forall j | 0 <= j < |x| ensures !UtcOrGmtAt(c, j) {
      NoMarkerBefore(x, rest, j);
    }
    FirstWhereIs(c, 0, UtcOrGmtAt, |x|);
  }

  /** No marker starts inside `x`: one that fits in `x` would be a marker of
      `x`, and one that runs on into `rest` would need its second or third
      letter to be the `U` or `G` that `rest` starts with. */
  lemma NoMarkerBefore(x: string, rest: string, j: nat)
    requires FirstUtcOrGmt(x) == None && j < |x|
    requires StartsWithAt(rest, 0, "UTC") || StartsWithAt(rest, 0, "GMT")
    ensures !UtcOrGmtAt(x + rest, j)
  {
    var c := x + rest;
    if j + 3 <= |x| {
      assert c[j..j + 3] == x[j..j + 3];
      assert !UtcOrGmtAt(x, j);
    } else {
      if StartsWithAt(rest, 0, "UTC") { StartsWithAtHead(rest, 0, "UTC"); } else { StartsWithAtHead(rest, 0, "GMT"); }
      assert c[|x|] == rest[0];
      if j + 3 <= |c| {
        assert c[|x|] == c[j..j + 3][|x| - j];
      }
    }
  }

  /** Without a marker in the collapsed text, the date part is the whole
      collapsed text, trimmed. */
  lemma CleanedWithoutMarker(s: string)
    requires FirstUtcOrGmt(Collapse(s)) == None
    ensures DateTimePart(s) == Trim(Collapse(s))
  {
    TrimMarkerFree(Collapse(s));
  }

  /** Trimming a marker-free text leaves it marker-free. */
  lemma TrimMarkerFree(s: string)
    requires FirstUtcOrGmt(s) == None
    ensures FirstUtcOrGmt(Trim(s)) == None
  {
    var n := LeadingSpaces(s);
    var plain := Trim(s);
    assert plain == s[n..][..|plain|] == s[n..n + |plain|];
    MarkerFreeSlice(s, n, n + |plain|);
  }

  /** A part of a marker-free text is marker-free. */
  lemma MarkerFreeSlice(s: string, lo: nat, hi: nat)
    requires lo <= hi <= |s| && FirstUtcOrGmt(s) == None
    ensures FirstUtcOrGmt(s[lo..hi]) == None
  {
    var x := s[lo..hi];
    forall j | 0 <= j <= |x| ensures !UtcOrGmtAt(x, j) {
      if j + 3 <= |x| {
        MarkerInPart(s, lo, hi, x, j);
      }
    }
    FirstWhereNone(x, 0, UtcOrGmtAt);
  }

  lemma MarkerInPart(s: string, lo: nat, hi: nat, x: string, j: nat)
    requires lo <= hi <= |s| && x == s[lo..hi] && j + 3 <= |x|
    requires FirstUtcOrGmt(s) == None
    ensures !UtcOrGmtAt(x, j)
  {
    var a, b := x[j..j + 3], s[lo + j..lo + j + 3];
    forall t | 0 <= t < 3 ensures a[t] == b[t] {
      assert a[t] == x[j + t];
    }
    assert a == b;
    assert !UtcOrGmtAt(s, lo + j);
  }

  // ---------------------------------------------------------------------------
  // the "Thai time, UTC time" cell

  /** A zone marker starts with `U`, `G` or `+`. */
  lemma ZoneMarkerHead(s: string, j: nat)
    requires j < |s|
    ensures ZoneMarkerAt(s, j) ==> s[j] == 'U' || s[j] == 'G' || s[j] == '+'
  {
    if StartsWithAt(s, j, "UTC") { StartsWithAtHead(s, j, "UTC"); }
    if StartsWithAt(s, j, "GMT") { StartsWithAtHead(s, j, "GMT"); }
    if StartsWithAt(s, j, "+0700") { StartsWithAtHead(s, j, "+0700"); }
  }

  /** A layout match survives putting text on either side. */
  lemma MatchesAtConcat(a: string, b: string, i: nat, t: seq<Slot>)
    ensures MatchesAt(a, i, t) ==> MatchesAt(a + b, i, t)
    ensures MatchesAt(b, i, t) ==> MatchesAt(a + b, |a| + i, t)
  {
    var c := a + b;
    if MatchesAt(a, i, t) {
      forall k | 0 <= k < |t| ensures SlotMatches(c[i + k], t[k]) {
        assert c[i + k] == a[i + k];
      }
    }
    if MatchesAt(b, i, t) {
      forall k | 0 <= k < |t| ensures SlotMatches(c[|a| + i + k], t[k]) {
        assert c[|a| + i + k] == b[i + k];
      }
    }
  }

  /** What an ISO text is made of, character by character. */
  predicate IsoShaped(s: string) {
    && |s| == 19 && MatchesAt(s, 0, IsoDate()) && s[10] == ' ' && IsDigit(s[15])
    && !IsSpace(s[0]) && !IsSpace(s[18])
    && (forall k :: 0 <= k < |s| ==> s[k] != 'U' && s[k] != 'G' && s[k] != '+')
    && (forall k :: 0 <= k < |s| && k != 10 ==> !IsSpace(s[k]))
    && (forall k :: 0 <= k < |s| ==> !IsLineTerminator(s[k]))
  }

  lemma IsoTextShape(w: WallClock)
    requires 0 <= w.year && 0 <= w.month && 0 <= w.day
    requires 0 <= w.hour && 0 <= w.minute && 0 <= w.second
    ensures IsoShaped(IsoText(w))
  {
    var s := IsoText(w);
    IsoTextMatches(w);
    IsoTextFields(w);
    IsoLayoutTextFacts(s);
    IsoLayoutHasIsoDate(s);
  }

  /** The date-time cell `a b UTC` is cut at its marker to `a b`. */
  lemma ZoneCutOfPair(a: string, b: string)
    requires IsoShaped(a) && IsoShaped(b)
    ensures var cell := a + " " + b + " UTC";
      Trim(cell) == cell && FirstWhere(cell, 0, ZoneMarkerAt) == Some(40) && Trim(cell[..40]) == a + " " + b
  {
    var cell := a + " " + b + " UTC";
    assert cell[42] == 'C' && cell[0] == a[0];
    TrimNoop(cell);
    PairMarker(a, b);
    PairFront(a, b);
  }

  /** The first zone marker of `a b UTC` is its `UTC`. */
  lemma PairMarker(a: string, b: string)
    requires IsoShaped(a) && IsoShaped(b)
    ensures FirstWhere(a + " " + b + " UTC", 0, ZoneMarkerAt) == Some(40)
  {
    var cell := a + " " + b + " UTC";
    assert StartsWithAt(cell, 40, "UTC") by {
      assert cell == (a + " " + b + " ") + "UTC";
      assert cell[40..43] == "UTC";
    }
    forall j | 0 <= j < 40 ensures !ZoneMarkerAt(cell, j) {
      PairNoMarkerAt(a, b, j);
    }
    FirstWhereIs(cell, 0, ZoneMarkerAt, 40);
  }

  lemma PairNoMarkerAt(a: string, b: string, j: nat)
    requires IsoShaped(a) && IsoShaped(b) && j < 40
    ensures !ZoneMarkerAt(a + " " + b + " UTC", j)
  {
    var cell := a + " " + b + " UTC";
    ZoneMarkerHead(cell, j);
    if j < 19 { assert cell[j] == a[j]; }
    else if 20 <= j < 39 { assert cell[j] == b[j - 20]; }
  }

  /** What comes before the marker trims to `a b`. */
  lemma PairFront(a: string, b: string)
    requires IsoShaped(a) && IsoShaped(b)
    ensures Trim((a + " " + b + " UTC")[..40]) == a + " " + b
  {
    var front := (a + " " + b + " UTC")[..40];
    assert front == (a + " " + b) + " ";
    assert front[0] == a[0] && front[38] == b[18];
    TrimStartNoop(front);
    TrailingSpacesIs(front, 1);
    assert front[..39] == a + " " + b;
  }

  /** `a b`, two ISO texts with a space between, holds two ISO dates and
      splits before the second. */
  lemma DateSplitOfPair(a: string, b: string)
    requires IsoShaped(a) && IsoShaped(b)
    ensures var t := a + " " + b;
      TwoIsoDates(t) && FirstWhere(t, 0, SpacedIsoDateAt) == Some(19) && Trim(t[..19]) == a
  {
    PairHasTwoDates(a, b);
    PairSplit(a, b);
    var t := a + " " + b;
    assert t[..19] == a;
    TrimNoop(a);
  }

  lemma PairHasTwoDates(a: string, b: string)
    requires IsoShaped(a) && IsoShaped(b)
    ensures TwoIsoDates(a + " " + b)
  {
    var t := a + " " + b;
    MatchesAtConcat(a, " " + b, 0, IsoDate());
    MatchesAtConcat(a + " ", b, 0, IsoDate());
    assert t == (a + " ") + b;
    forall k | 10 <= k < 20 ensures !IsLineTerminator(t[k]) {
      if k < 19 { assert t[k] == a[k]; }
    }
    assert MatchesAt(t, 0, IsoDate()) && MatchesAt(t, 20, IsoDate());
  }

  /** The first white space leading into an ISO date is the one at 19. */
  lemma PairSplit(a: string, b: string)
    requires IsoShaped(a) && IsoShaped(b)
    ensures FirstWhere(a + " " + b, 0, SpacedIsoDateAt) == Some(19)
  {
    var t := a + " " + b;
    MatchesAtConcat(a + " ", b, 0, IsoDate());
    assert t == (a + " ") + b;
    assert t[19] == ' ' && t[20] == b[0];
    RunEndIs(t, 19, IsSpace, 20);
    assert SpacedIsoDateAt(t, 19);
    forall j | 0 <= j < 19 ensures !SpacedIsoDateAt(t, j) {
      PairNoSplitAt(a, b, j);
    }
    FirstWhereIs(t, 0, SpacedIsoDateAt, 19);
  }

  lemma PairNoSplitAt(a: string, b: string, j: nat)
    requires IsoShaped(a) && IsoShaped(b) && j < 19
    ensures !SpacedIsoDateAt(a + " " + b, j)
  {
    var t := a + " " + b;
    assert t[j] == a[j];
    if j == 10 {
      assert t[11] == a[11];
      RunEndIs(t, 10, IsSpace, 11);
      assert t[15] == a[15];
      assert |IsoDate()| == 10 && IsoDate()[4] == Lit('-');
      assert !SlotMatches(t[15], IsoDate()[4]);
    }
  }

  /** A date cell written the way the observatory writes it, Thai time then
      UTC time then `UTC`, keeps the Thai time. */
  lemma ThaiDateTimeOfPair(w1: WallClock, w2: WallClock)
    requires 0 <= w1.year && 0 <= w1.month && 0 <= w1.day && 0 <= w1.hour && 0 <= w1.minute && 0 <= w1.second
    requires 0 <= w2.year && 0 <= w2.month && 0 <= w2.day && 0 <= w2.hour && 0 <= w2.minute && 0 <= w2.second
    ensures ThaiDateTime(IsoText(w1) + " " + IsoText(w2) + " UTC") == IsoText(w1)
  {
    IsoTextShape(w1);
    IsoTextShape(w2);
    ZoneCutOfPair(IsoText(w1), IsoText(w2));
    DateSplitOfPair(IsoText(w1), IsoText(w2));
  }

  /** Two-digit padding, digit by digit. */
  lemma PadTwo(n: nat)
    requires n < 100
    ensures Pad(n, 2) == [DigitChar(n / 10), DigitChar(n % 10)]
  {
    assert Pad(n / 10, 1) == Pad(n / 10 / 10, 0) + [DigitChar(n / 10 % 10)];
  }

  lemma ExampleYear()
    ensures Pad(2025, 4) == "2025"
  {
    PadTwo(20);
    assert DigitChar(2) == '2' && DigitChar(0) == '0';
    PadStep(202, 2, '2');
    PadStep(2025, 3, '5');
  }

  /** One more digit of padding appends the last digit. */
  lemma PadStep(n: nat, width: nat, last: char)
    requires last == DigitChar(n % 10)
    ensures Pad(n, width + 1) == Pad(n / 10, width) + [last]
  {
  }

  lemma ExampleDates()
    ensures DateText(2025, 3, 29) == "2025-03-29"
    ensures DateText(2025, 3, 28) == "2025-03-28"
  {
    ExampleYear();
    PadTwo(3);
    PadTwo(29);
    PadTwo(28);
    assert Pad(3, 2) == "03" && Pad(29, 2) == "29" && Pad(28, 2) == "28";
    assert DateText(2025, 3, 29) == "2025" + "-" + "03" + "-" + "29";
    assert DateText(2025, 3, 28) == "2025" + "-" + "03" + "-" + "28";
  }

  lemma ExampleTimes()
    ensures TimeText(5, 38, 57) == " 05:38:57"
    ensures TimeText(22, 38, 57) == " 22:38:57"
  {
    PadTwo(5);
    PadTwo(22);
    PadTwo(38);
    PadTwo(57);
    assert Pad(5, 2) == "05" && Pad(22, 2) == "22" && Pad(38, 2) == "38" && Pad(57, 2) == "57";
    assert TimeText(5, 38, 57) == " " + "05" + ":" + "38" + ":" + "57";
    assert TimeText(22, 38, 57) == " " + "22" + ":" + "38" + ":" + "57";
  }

  lemma ExampleTexts()
    ensures IsoText(WallClock(2025, 3, 29, 5, 38, 57)) == "2025-03-29 05:38:57"
    ensures IsoText(WallClock(2025, 3, 28, 22, 38, 57)) == "2025-03-28 22:38:57"
  {
    ExampleDates();
    ExampleTimes();
    ExampleGlue();
    IsoTextOf(WallClock(2025, 3, 29, 5, 38, 57), "2025-03-29", " 05:38:57", "2025-03-29 05:38:57");
    IsoTextOf(WallClock(2025, 3, 28, 22, 38, 57), "2025-03-28", " 22:38:57", "2025-03-28 22:38:57");
  }

  lemma ExampleGlue()
    ensures "2025-03-29" + " 05:38:57" == "2025-03-29 05:38:57"
    ensures "2025-03-28" + " 22:38:57" == "2025-03-28 22:38:57"
  {
  }

  lemma IsoTextOf(w: WallClock, date: string, time: string, text: string)
    requires 0 <= w.year && 0 <= w.month && 0 <= w.day
    requires 0 <= w.hour && 0 <= w.minute && 0 <= w.second
    requires DateText(w.year, w.month, w.day) == date && TimeText(w.hour, w.minute, w.second) == time
    requires date + time == text
    ensures IsoText(w) == text
  {
  }

  lemma ExampleCellText()
    ensures "2025-03-29 05:38:57 2025-03-28 22:38:57 UTC"
      == IsoText(WallClock(2025, 3, 29, 5, 38, 57)) + " " + IsoText(WallClock(2025, 3, 28, 22, 38, 57)) + " UTC"
  {
    ExampleTexts();
    ExampleCellPieces(IsoText(WallClock(2025, 3, 29, 5, 38, 57)), IsoText(WallClock(2025, 3, 28, 22, 38, 57)));
  }

  lemma ExampleCellPieces(a: string, b: string)
    requires a == "2025-03-29 05:38:57" && b == "2025-03-28 22:38:57"
    ensures "2025-03-29 05:38:57 2025-03-28 22:38:57 UTC" == a + " " + b + " UTC"
  {
  }

  lemma ExampleInstant()
    ensures ValidWallClock(WallClock(2025, 3, 29, 5, 38, 57))
    ensures BangkokInstant(WallClock(2025, 3, 29, 5, 38, 57)) == 1743201537000
  {
  }

  /** The observatory's own example cell: the Thai time 05:38:57 on 29 March
      2025 is kept, and the event time is 2025-03-28T22:38:57Z. */
  lemma ExampleCellTime(native: string -> Option<int>)
    ensures ThaiDateTime("2025-03-29 05:38:57 2025-03-28 22:38:57 UTC") == "2025-03-29 05:38:57"
    ensures ParseTimeString(ThaiDateTime("2025-03-29 05:38:57 2025-03-28 22:38:57 UTC"), native) == Some(1743201537000)
  {
    var w1 := WallClock(2025, 3, 29, 5, 38, 57);
    var w2 := WallClock(2025, 3, 28, 22, 38, 57);
    ExampleCellText();
    ExampleTexts();
    ThaiDateTimeOfPair(w1, w2);
    ExampleInstant();
    ParseIsoText(w1, native);
  }
}
