/** The batch scraper's `convertToCSV`: a fixed header line, then one line
    per earthquake in input order, with LF line ends. Title and description
    are wrapped in double quotes with every inner quote doubled; link and the
    numbers are written as they are. Number and date rendering
    (`String(number)`, `Date.prototype.toISOString`) are parameters. */
module CsvWriter {
  import opened JsString
  import opened JsNumber
  import opened Events

  const Header: string := "title,link,latitude,longitude,depth,magnitude,time,description\n"

  /** `text.replace(/"/g, '""')`. */
  function Escape(text: string): (r: string)
    ensures |r| >= |text|
    ensures '"' !in text ==> r == text
  {
    if text == [] then []
    else (if text[0] == '"' then "\"\"" else [text[0]]) + Escape(text[1..])
  }

  /** A text field as the CSV holds it. */
  function Quote(text: string): (r: string)
    ensures |r| >= 2 && r[0] == '"' && r[|r| - 1] == '"'
  {
    "\"" + Escape(text) + "\""
  }

  /** A reader for the body of a quoted field, after its opening quote: a
      doubled quote stands for one quote, a single quote closes the field.
      Gives the field's text and what follows the closing quote. */
  function ReadBody(s: string): (r: Option<(string, string)>)
    ensures r.Some? ==> |r.value.1| < |s|
  {
    if s == [] then None
    else if s[0] == '"' then
      if |s| >= 2 && s[1] == '"' then
        match ReadBody(s[2..])
        case Some((body, rest)) => Some(("\"" + body, rest))
        case None => None
      else Some(([], s[1..]))
    else
      match ReadBody(s[1..])
      case Some((body, rest)) => Some(([s[0]] + body, rest))
      case None => None
  }

  /** Reads one quoted field from the front of `s`. */
  function ReadQuoted(s: string): (r: Option<(string, string)>)
    ensures r.Some? ==> |r.value.1| < |s| - 1
  {
    if s != [] && s[0] == '"' then ReadBody(s[1..]) else None
  }

  /** `fields.join(',')`. */
  function Join(fields: seq<string>): (r: string)
    ensures |fields| == 1 ==> r == fields[0]
  {
    if fields == [] then []
    else if |fields| == 1 then fields[0]
    else fields[0] + "," + Join(fields[1..])
  }

  /** The eight fields of one line, in header order. */
  function RowFields(q: Quake, number: Num -> string, iso: int -> string): (fs: seq<string>)
    ensures |fs| == 8
  {
    [Quote(q.title), q.link, number(Finite(q.latitude)), number(Finite(q.longitude)),
     number(q.depth), number(Finite(q.magnitude)), iso(q.time), Quote(q.description)]
  }

  /** One CSV line: the fields joined by commas, then LF. */
  function RowText(q: Quake, number: Num -> string, iso: int -> string): string {
    Join(RowFields(q, number, iso)) + "\n"
  }

  /** The lines of `qs`, in order. */
  function RowsText(qs: seq<Quake>, number: Num -> string, iso: int -> string): string {
    Lines(qs, q => RowText(q, number, iso))
  }

  /** The lines `line` gives for `qs`, one after another in order. */
  function Lines(qs: seq<Quake>, line: Quake -> string): string {
    if qs == [] then []
    else Lines(qs[..|qs| - 1], line) + line(qs[|qs| - 1])
  }

  /** The body of the `forEach` callback: one earthquake's line. */
  method FormatRow(quake: Quake, number: Num -> string, iso: int -> string) returns (line: string)
    ensures line == RowText(quake, number, iso)
  {
    var formattedTime := iso(quake.time);
    var escapedTitle := "\"" + Escape(quake.title) + "\"";
    var escapedDescription := "\"" + Escape(quake.description) + "\"";
    var row := [escapedTitle, quake.link, number(Finite(quake.latitude)), number(Finite(quake.longitude)),
                number(quake.depth), number(Finite(quake.magnitude)), formattedTime, escapedDescription];
    assert row == RowFields(quake, number, iso);
    line := Join(row) + "\n";
  }

  /** `convertToCSV`: None where the source throws on an empty list. */
  method ConvertToCsv(earthquakes: seq<Quake>, number: Num -> string, iso: int -> string)
    returns (r: Option<string>)
    ensures r.None? <==> earthquakes == []
    ensures r.Some? ==> r.value == Header + RowsText(earthquakes, number, iso)
  {
    if |earthquakes| == 0 {
      return None;
    }
    var csvContent := Header;
    for i := 0 to |earthquakes|
      invariant csvContent == Header + RowsText(earthquakes[..i], number, iso)
    {
      var line := FormatRow(earthquakes[i], number, iso);
      AppendLine(Header, earthquakes, i, number, iso);
      csvContent := csvContent + line;
    }
    assert earthquakes[..|earthquakes|] == earthquakes;
    return Some(csvContent);
  }

  // ---------------------------------------------------------------------------
  // properties

  /** The text after one more earthquake ends with its line. */
  lemma AppendLine(head: string, qs: seq<Quake>, i: nat, number: Num -> string, iso: int -> string)
    requires i < |qs|
    ensures head + RowsText(qs[..i + 1], number, iso) == head + RowsText(qs[..i], number, iso) + RowText(qs[i], number, iso)
  {
    assert qs[..i + 1][..i] == qs[..i];
  }


  /** Escaping is undone by the reader, whatever follows the closing quote
      as long as it is not itself a quote. */
  lemma {:induction false} ReadEscaped(text: string, rest: string)
    requires rest == [] || rest[0] != '"'
    ensures ReadBody(Escape(text) + "\"" + rest) == Some((text, rest))
  {
    if text == [] {
      assert Escape(text) + "\"" + rest == ['"'] + rest;
    } else {
      ReadEscaped(text[1..], rest);
      var tail := Escape(text[1..]) + "\"" + rest;
      var head := if text[0] == '"' then "\"\"" else [text[0]];
      assert Escape(text) == head + Escape(text[1..]);
      assert Escape(text) + "\"" + rest == head + tail by {
        ConcatAssoc(head, Escape(text[1..]), "\"", rest);
      }
      if text[0] == '"' {
        ReadDoubled(tail, text[1..], rest);
        assert "\"" + text[1..] == text;
      } else {
        ReadPlain(text[0], tail, text[1..], rest);
        assert [text[0]] + text[1..] == text;
      }
    }
  }

  /** A doubled quote reads as one quote. */
  lemma ReadDoubled(tail: string, body: string, rest: string)
    requires ReadBody(tail) == Some((body, rest))
    ensures ReadBody("\"\"" + tail) == Some(("\"" + body, rest))
  {
    var s := "\"\"" + tail;
    assert s[0] == '"' && s[1] == '"' && s[2..] == tail;
  }

  /** Any other character reads as itself. */
  lemma ReadPlain(c: char, tail: string, body: string, rest: string)
    requires c != '"' && ReadBody(tail) == Some((body, rest))
    ensures ReadBody([c] + tail) == Some(([c] + body, rest))
  {
    var s := [c] + tail;
    assert s[0] == c && s[1..] == tail;
  }

  /** A quoted field reads back as its text: commas, quotes and line breaks
      inside it survive. */
  lemma QuoteRoundTrip(text: string, rest: string)
    requires rest == [] || rest[0] != '"'
    ensures ReadQuoted(Quote(text) + rest) == Some((text, rest))
  {
    ReadEscaped(text, rest);
    assert (Quote(text) + rest)[1..] == Escape(text) + "\"" + rest;
  }

  /** The first field of every line reads back as the title. */
  lemma RowTitle(q: Quake, number: Num -> string, iso: int -> string)
    ensures ReadQuoted(RowText(q, number, iso)).Some?
    ensures ReadQuoted(RowText(q, number, iso)).value.0 == q.title
  {
    var fs := RowFields(q, number, iso);
    JoinFirst(fs);
    var rest := "," + Join(fs[1..]) + "\n";
    assert RowText(q, number, iso) == Quote(q.title) + rest;
    QuoteRoundTrip(q.title, rest);
  }

  /** Joining splits off the first field at the first comma. */
  lemma JoinFirst(fields: seq<string>)
    requires |fields| >= 2
    ensures Join(fields) == fields[0] + "," + Join(fields[1..])
  {
  }

  /** Joining splits off the last field at the last comma. */
  lemma {:induction false} JoinLast(fields: seq<string>)
    requires |fields| >= 2
    ensures Join(fields) == Join(fields[..|fields| - 1]) + "," + fields[|fields| - 1]
  {
    if |fields| > 2 {
      JoinLast(fields[1..]);
      assert fields[1..][..|fields| - 2] == fields[..|fields| - 1][1..];
    }
  }

  /** Every line ends with the quoted description and LF. */
  lemma RowDescription(q: Quake, number: Num -> string, iso: int -> string)
    ensures exists front :: RowText(q, number, iso) == front + "," + Quote(q.description) + "\n"
  {
    var fs := RowFields(q, number, iso);
    JoinLast(fs);
    assert RowText(q, number, iso) == Join(fs[..7]) + "," + Quote(q.description) + "\n";
  }

  /** The lines of a concatenation are the lines of each part: one line per
      earthquake, in input order. */
  lemma {:induction false} LinesAppend(a: seq<Quake>, b: seq<Quake>, line: Quake -> string)
    ensures Lines(a + b, line) == Lines(a, line) + Lines(b, line)
    decreases |b|
  {
    if b == [] {
      assert a + b == a;
    } else {
      var b', last := b[..|b| - 1], b[|b| - 1];
      assert (a + b)[..|a + b| - 1] == a + b';
      assert (a + b)[|a + b| - 1] == last;
      calc {
        Lines(a + b, line);
        Lines(a + b', line) + line(last);
        { LinesAppend(a, b', line); }
        Lines(a, line) + Lines(b', line) + line(last);
        Lines(a, line) + Lines(b, line);
      }
    }
  }

  lemma RowsAppend(a: seq<Quake>, b: seq<Quake>, number: Num -> string, iso: int -> string)
    ensures RowsText(a + b, number, iso) == RowsText(a, number, iso) + RowsText(b, number, iso)
  {
    LinesAppend(a, b, q => RowText(q, number, iso));
  }
}
