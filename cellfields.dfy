/** The batch scraper's readers for the numeric and link fields of one table
    row: magnitude, latitude and longitude, depth, and the detail link built
    from the row's `onclick` attribute. Each regular expression is written as
    "the first position where it matches" plus the captured slice. */
module CellFields {
  import opened JsString
  import opened JsNumber

  // ---------------------------------------------------------------------------
  // magnitude

  /** `<strong>([\d.]+)<\/strong>` matches at `i`; the group is the run of
      digits and full stops after the opening tag. */
  predicate StrongAt(s: string, i: nat) {
    && StartsWithAt(s, i, "<strong>")
    && var e := RunEnd(s, i + 8, IsDigitOrDot);
       e > i + 8 && StartsWithAt(s, e, "</strong>")
  }

  /** `(\d+\.\d+)` matches at `i`: digits from `i`, a full stop where they
      end, and a digit after it. */
  predicate DecimalAt(s: string, i: nat) {
    && i < |s| && IsDigit(s[i])
    && var e := RunEnd(s, i, IsDigit);
       e + 1 < |s| && s[e] == '.' && IsDigit(s[e + 1])
  }

  /** Where the match of `(\d+\.\d+)` at `i` ends. */
  function DecimalEnd(s: string, i: nat): (e: nat)
    requires DecimalAt(s, i)
    ensures i < e <= |s|
    ensures forall k :: i <= k < e ==> IsDigitOrDot(s[k])
  {
    var d := RunEnd(s, i, IsDigit);
    RunEnd(s, d + 1, IsDigit)
  }

  /** All characters of `s` are digits or full stops. */
  predicate DigitsAndDots(s: string) {
    forall k :: 0 <= k < |s| ==> IsDigitOrDot(s[k])
  }

  lemma SliceOfDigitsAndDots(s: string, i: nat, e: nat)
    requires i <= e <= |s| && forall k :: i <= k < e ==> IsDigitOrDot(s[k])
    ensures DigitsAndDots(s[i..e])
  {
    forall k | 0 <= k < e - i ensures IsDigitOrDot(s[i..e][k]) {
      assert s[i..e][k] == s[i + k];
    }
  }

  /** The magnitude cell's number: a `<strong>`-wrapped number first, else
      the first decimal `\d+\.\d+`, else `parseFloat` of the cell with every
      character other than a digit or a full stop removed. It is never
      negative and never infinite. */
  function Magnitude(cell: string): (r: Num)
    ensures r == NaN || (r.Finite? && r.value >= 0.0)
  {
    match FirstWhere(cell, 0, StrongAt)
    case Some(i) =>
      var g := cell[i + 8..RunEnd(cell, i + 8, IsDigitOrDot)];
      RunSlice(cell, i + 8, IsDigitOrDot);
      ParseFloatDigitsAndDots(g);
      ParseFloat(g)
    case None =>
      match FirstWhere(cell, 0, DecimalAt)
      case Some(i) =>
        var g := cell[i..DecimalEnd(cell, i)];
        SliceOfDigitsAndDots(cell, i, DecimalEnd(cell, i));
        ParseFloatDigitsAndDots(g);
        ParseFloat(g)
      case None =>
        ParseFloatDigitsAndDots(KeepDigitsAndDots(cell));
        ParseFloat(KeepDigitsAndDots(cell))
  }

  // ---------------------------------------------------------------------------
  // coordinates and depth

  predicate DigitOrDotAt(s: string, i: nat) { i < |s| && IsDigitOrDot(s[i]) }

  predicate DigitAt(s: string, i: nat) { i < |s| && IsDigit(s[i]) }

  /** Latitude (`([\d.]+)°?N?`) and longitude (`([\d.]+)°?E?`): `parseFloat`
      of the first run of digits and full stops, NaN when there is none. The
      degree sign and hemisphere letter are optional in the expression and
      never read, so no hemisphere changes the sign. */
  function Coordinate(cell: string): (r: Num)
    ensures r == NaN || (r.Finite? && r.value >= 0.0)
    ensures (forall k :: 0 <= k < |cell| ==> !IsDigitOrDot(cell[k])) ==> r == NaN
  {
    match FirstWhere(cell, 0, DigitOrDotAt)
    case Some(i) =>
      var g := cell[i..RunEnd(cell, i, IsDigitOrDot)];
      RunSlice(cell, i, IsDigitOrDot);
      ParseFloatDigitsAndDots(g);
      ParseFloat(g)
    case None => NaN
  }

  /** Where the match of `\d+(?:\.\d+)?` at a digit `i` ends: the digits,
      and the fraction when a full stop and a digit follow them. */
  function DepthEnd(s: string, i: nat): (e: nat)
    requires i < |s| && IsDigit(s[i])
    ensures i < e <= |s|
    ensures forall k :: i <= k < e ==> IsDigitOrDot(s[k])
  {
    var d := RunEnd(s, i, IsDigit);
    if d + 1 < |s| && s[d] == '.' && IsDigit(s[d + 1]) then RunEnd(s, d + 1, IsDigit) else d
  }

  lemma NoFirstDigit(s: string)
    requires FirstWhere(s, 0, DigitAt) == None
    ensures forall k :: 0 <= k < |s| ==> !IsDigit(s[k])
  {
    forall k | 0 <= k < |s| ensures !IsDigit(s[k]) {
      assert !DigitAt(s, k);
    }
  }

  /** Depth (`(\d+(?:\.\d+)?)`): the first integer or decimal, NaN exactly
      when the cell holds no digit. */
  function Depth(cell: string): (r: Num)
    ensures r == NaN <==> forall k :: 0 <= k < |cell| ==> !IsDigit(cell[k])
    ensures r.Finite? ==> r.value >= 0.0
  {
    match FirstWhere(cell, 0, DigitAt)
    case Some(i) =>
      var e := DepthEnd(cell, i);
      var g := cell[i..e];
      SliceOfDigitsAndDots(cell, i, e);
      ParseFloatDigitsAndDots(g);
      assert g[0] == cell[i];
      TrimStartNoop(g);
      ParseFloat(g)
    case None =>
      NoFirstDigit(cell);
      NaN
  }

  // ---------------------------------------------------------------------------
  // detail link

  /** The page the detail links are relative to. */
  const DetailBase: string := "https://earthquake.tmd.go.th/"

  predicate NotQuote(c: char) { c != '\'' }

  /** `window\.open\('([^']+)'\)` matches at `i`; the group is the run of
      characters other than `'` after the opening. */
  predicate WindowOpenAt(s: string, i: nat) {
    && StartsWithAt(s, i, "window.open('")
    && var e := RunEnd(s, i + 13, NotQuote);
       e > i + 13 && StartsWithAt(s, e, "')")
  }

  /** The row's detail link: the base followed by the argument of the first
      `window.open('…')` in the `onclick` attribute, or empty when the
      attribute is missing, empty or holds no such call. */
  function DetailLink(onclick: Option<string>): (link: string)
    ensures link != [] ==> |link| > |DetailBase| && link[..|DetailBase|] == DetailBase
    ensures link != [] ==> forall k :: |DetailBase| <= k < |link| ==> link[k] != '\''
  {
    match onclick
    case None => []
    case Some(attr) =>
      match FirstWhere(attr, 0, WindowOpenAt)
      case None => []
      case Some(i) =>
        var arg := attr[i + 13..RunEnd(attr, i + 13, NotQuote)];
        RunSlice(attr, i + 13, NotQuote);
        var link := DetailBase + arg;
        assert forall k :: |DetailBase| <= k < |link| ==> link[k] == arg[k - |DetailBase|];
        link
  }

  // ---------------------------------------------------------------------------
  // properties

  /** `a.b` read as a decimal. */
  function DecimalValue(a: string, b: string): real
    requires AllDigits(a) && AllDigits(b)
  {
    DigitsValue(a) as real + Fraction(b)
  }

  lemma ParseFloatGroup(a: string, b: string)
    requires |a| > 0 && AllDigits(a) && |b| > 0 && AllDigits(b)
    ensures ParseFloat(a + "." + b) == Finite(DecimalValue(a, b))
  {
    var g := a + "." + b;
    ParseFloatDecimal(a, b, []);
    assert ParseFloat(g + []) == ParseFloat(g) by { assert g + [] == g; }
  }

  /** A number wrapped in `<strong>` wins over any decimal before it. */
  lemma MagnitudeStrong(pre: string, a: string, b: string, post: string)
    requires forall k :: 0 <= k < |pre| ==> pre[k] != '<'
    requires |a| > 0 && AllDigits(a) && |b| > 0 && AllDigits(b)
    ensures Magnitude(pre + "<strong>" + a + "." + b + "</strong>" + post) == Finite(DecimalValue(a, b))
  {
    var g := a + "." + b;
    assert DigitsAndDots(g) by {
      forall t | 0 <= t < |g| ensures IsDigitOrDot(g[t]) {
        if t < |a| { assert g[t] == a[t]; }
        else if t > |a| { assert g[t] == b[t - |a| - 1]; }
      }
    }
    var s := pre + "<strong>" + g + "</strong>" + post;
    assert s == pre + "<strong>" + a + "." + b + "</strong>" + post;
    Framed(pre, "<strong>", g, "</strong>", post);
    forall k | 0 <= k < |pre| ensures s[k] != '<' {
      assert s[k] == s[..|pre|][k];
    }
    StrongFirst(s, |pre|, g);
    ParseFloatGroup(a, b);
  }

  /** A `<strong>` tag at `i` around the group `g`, with no `<` before it, is
      the first tag, and the magnitude is read from `g`. */
  lemma StrongFirst(s: string, i: nat, g: string)
    requires i + 8 + |g| <= |s| && forall k :: 0 <= k < i ==> s[k] != '<'
    requires |g| > 0 && DigitsAndDots(g)
    requires StartsWithAt(s, i, "<strong>")
    requires s[i + 8..i + 8 + |g|] == g
    requires StartsWithAt(s, i + 8 + |g|, "</strong>")
    ensures Magnitude(s) == ParseFloat(g)
  {
    var e := i + 8 + |g|;
    assert RunEnd(s, i + 8, IsDigitOrDot) == e by {
      forall k | i + 8 <= k < e ensures IsDigitOrDot(s[k]) {
        assert s[k] == s[i + 8..e][k - i - 8];
      }
      StartsWithAtHead(s, e, "</strong>");
      RunEndIs(s, i + 8, IsDigitOrDot, e);
    }
    assert FirstWhere(s, 0, StrongAt) == Some(i) by {
      forall j | 0 <= j < i ensures !StrongAt(s, j) {
        if StartsWithAt(s, j, "<strong>") { StartsWithAtHead(s, j, "<strong>"); }
      }
      FirstWhereIs(s, 0, StrongAt, i);
    }
    MagnitudeOfStrong(s, i, e, g);
  }

  /** The magnitude is read from the first `<strong>` group. */
  lemma MagnitudeOfStrong(s: string, i: nat, e: nat, g: string)
    requires FirstWhere(s, 0, StrongAt) == Some(i)
    requires i + 8 <= e <= |s| && RunEnd(s, i + 8, IsDigitOrDot) == e && s[i + 8..e] == g
    ensures Magnitude(s) == ParseFloat(g)
  {
  }

  /** Text without `<` holds no `<strong>` tag. */
  lemma NoStrongWithoutAngle(s: string)
    requires forall k :: 0 <= k < |s| ==> s[k] != '<'
    ensures FirstWhere(s, 0, StrongAt) == None
  {
    forall j | 0 <= j <= |s| ensures !StrongAt(s, j) {
      if j < |s| && StartsWithAt(s, j, "<strong>") { StartsWithAtHead(s, j, "<strong>"); }
    }
    FirstWhereNone(s, 0, StrongAt);
  }

  /** Without a `<strong>` tag, the first decimal is read, and whatever
      follows it is ignored. */
  lemma MagnitudeDecimal(pre: string, a: string, b: string, post: string)
    requires forall k :: 0 <= k < |pre| ==> pre[k] != '<' && !IsDigit(pre[k])
    requires forall k :: 0 <= k < |post| ==> post[k] != '<'
    requires post == [] || !IsDigit(post[0])
    requires |a| > 0 && AllDigits(a) && |b| > 0 && AllDigits(b)
    ensures Magnitude(pre + a + "." + b + post) == Finite(DecimalValue(a, b))
  {
    var s := pre + a + "." + b + post;
    var i := |pre|;
    var d := i + |a|;
    var e := d + 1 + |b|;
    assert FirstWhere(s, 0, StrongAt) == None by {
      forall k | 0 <= k < |s| ensures s[k] != '<' {
        if k < i { assert s[k] == pre[k]; }
        else if k < d { assert s[k] == a[k - i]; }
        else if d < k < e { assert s[k] == b[k - d - 1]; }
        else if e <= k { assert s[k] == post[k - e]; }
      }
      NoStrongWithoutAngle(s);
    }
    FirstDecimal(pre, a, b, post);
    assert s[i..e] == a + "." + b;
    MagnitudeOfDecimal(s, i, e, a + "." + b);
    ParseFloatGroup(a, b);
  }

  /** Without a `<strong>` tag, the magnitude is read from the first decimal. */
  lemma MagnitudeOfDecimal(s: string, i: nat, e: nat, g: string)
    requires FirstWhere(s, 0, StrongAt) == None && FirstWhere(s, 0, DecimalAt) == Some(i)
    requires DecimalAt(s, i) && DecimalEnd(s, i) == e && s[i..e] == g
    ensures Magnitude(s) == ParseFloat(g)
  {
  }

  lemma FirstDecimal(pre: string, a: string, b: string, post: string)
    requires forall k :: 0 <= k < |pre| ==> !IsDigit(pre[k])
    requires post == [] || !IsDigit(post[0])
    requires |a| > 0 && AllDigits(a) && |b| > 0 && AllDigits(b)
    ensures var s := pre + a + "." + b + post;
      FirstWhere(s, 0, DecimalAt) == Some(|pre|) && DecimalEnd(s, |pre|) == |pre| + |a| + 1 + |b|
  {
    var s := pre + a + "." + b + post;
    var i := |pre|;
    var d := i + |a|;
    var e := d + 1 + |b|;
    forall k | i <= k < d ensures IsDigit(s[k]) { assert s[k] == a[k - i]; }
    assert s[d] == '.';
    RunEndIs(s, i, IsDigit, d);
    forall k | d + 1 <= k < e ensures IsDigit(s[k]) { assert s[k] == b[k - d - 1]; }
    assert e < |s| ==> s[e] == post[0];
    RunEndIs(s, d + 1, IsDigit, e);
    assert s[i] == a[0] && s[d + 1] == b[0];
    assert DecimalAt(s, i);
    forall j | 0 <= j < i ensures !DecimalAt(s, j) {
      assert s[j] == pre[j];
    }
    FirstWhereIs(s, 0, DecimalAt, i);
  }

  lemma KeepDigitsAndDotsOfDigits(ds: string)
    requires AllDigits(ds)
    ensures KeepDigitsAndDots(ds) == ds
  {
    if ds != [] {
      KeepDigitsAndDotsOfDigits(ds[1..]);
      assert ds == [ds[0]] + ds[1..];
    }
  }

  /** A magnitude cell of bare digits reads as the integer they spell. */
  lemma MagnitudeInteger(ds: string)
    requires |ds| > 0 && AllDigits(ds)
    ensures Magnitude(ds) == Finite(DigitsValue(ds) as real)
  {
    forall j | 0 <= j <= |ds| ensures !StrongAt(ds, j) && !DecimalAt(ds, j) {
      if j < |ds| && StartsWithAt(ds, j, "<strong>") { StartsWithAtHead(ds, j, "<strong>"); }
      if j < |ds| {
        RunEndIs(ds, j, IsDigit, |ds|);
      }
    }
    FirstWhereNone(ds, 0, StrongAt);
    FirstWhereNone(ds, 0, DecimalAt);
    KeepDigitsAndDotsOfDigits(ds);
    TrimStartNoop(ds);
    DecimalPrefixInteger(ds);
  }

  /** A coordinate `a.b` followed by a degree sign, a hemisphere letter or
      anything else that is not a digit or a full stop reads as `a.b`. */
  lemma CoordinateOf(a: string, b: string, h: string)
    requires |a| > 0 && AllDigits(a) && |b| > 0 && AllDigits(b)
    requires h == [] || !IsDigitOrDot(h[0])
    ensures Coordinate(a + "." + b + h) == Finite(DecimalValue(a, b))
  {
    var g := a + "." + b;
    var s := g + h;
    assert s == a + "." + b + h;
    assert s[0] == a[0];
    FirstWhereIs(s, 0, DigitOrDotAt, 0);
    forall k | 0 <= k < |g| ensures IsDigitOrDot(s[k]) {
      assert s[k] == g[k];
      assert k < |a| ==> g[k] == a[k];
      assert k > |a| ==> g[k] == b[k - |a| - 1];
    }
    assert |g| < |s| ==> s[|g|] == h[0];
    RunEndIs(s, 0, IsDigitOrDot, |g|);
    assert s[0..|g|] == g;
    ParseFloatGroup(a, b);
  }

  /** No hemisphere flips the sign: southern and northern, western and
      eastern readings of the same digits are the same number. */
  lemma CoordinateIgnoresHemisphere(a: string, b: string)
    requires |a| > 0 && AllDigits(a) && |b| > 0 && AllDigits(b)
    ensures Coordinate(a + "." + b + "°S") == Coordinate(a + "." + b + "°N")
    ensures Coordinate(a + "." + b + "°W") == Coordinate(a + "." + b + "°E")
  {
    CoordinateOf(a, b, "°S");
    CoordinateOf(a, b, "°N");
    CoordinateOf(a, b, "°W");
    CoordinateOf(a, b, "°E");
  }

  /** The observatory's latitude text `18.856°N` is 18.856. */
  lemma ExampleLatitude()
    ensures Coordinate("18.856°N") == Finite(18.856)
  {
    CoordinateOf("18", "856", "°N");
    ExampleLatitudeText("18", "856", "°N");
    ExampleLatitudeValue();
  }

  lemma ExampleLatitudeText(a: string, b: string, h: string)
    requires a == "18" && b == "856" && h == "°N"
    ensures a + "." + b + h == "18.856°N"
  {
  }

  lemma ExampleLatitudeValue()
    ensures DecimalValue("18", "856") == 18.856
  {
    assert DigitsValue("18") == 18 by {
      assert "18"[..1] == "1";
    }
    assert Fraction("856") == 0.856 by {
      assert "856"[1..] == "56" && "56"[1..] == "6" && "6"[1..] == [];
    }
  }

  /** A depth of digits followed by a unit or nothing reads as that integer. */
  lemma DepthInteger(ds: string, rest: string)
    requires |ds| > 0 && AllDigits(ds)
    requires rest == [] || !IsDigitOrDot(rest[0])
    ensures Depth(ds + rest) == Finite(DigitsValue(ds) as real)
  {
    var s := ds + rest;
    assert s[0] == ds[0];
    FirstWhereIs(s, 0, DigitAt, 0);
    forall k | 0 <= k < |ds| ensures IsDigit(s[k]) { assert s[k] == ds[k]; }
    assert |ds| < |s| ==> s[|ds|] == rest[0];
    RunEndIs(s, 0, IsDigit, |ds|);
    assert DepthEnd(s, 0) == |ds|;
    assert s[0..|ds|] == ds;
    TrimStartNoop(ds);
    DecimalPrefixInteger(ds);
  }

  /** The link of `window.open('p')` is the base followed by `p`. */
  lemma DetailLinkOf(p: string)
    requires |p| > 0 && forall k :: 0 <= k < |p| ==> p[k] != '\''
    ensures DetailLink(Some("window.open('" + p + "')")) == DetailBase + p
  {
    var s := "window.open('" + p + "')";
    assert s[0..13] == "window.open('";
    forall k | 13 <= k < 13 + |p| ensures NotQuote(s[k]) { assert s[k] == p[k - 13]; }
    assert s[13 + |p|] == '\'';
    RunEndIs(s, 13, NotQuote, 13 + |p|);
    assert s[13 + |p|..13 + |p| + 2] == "')";
    FirstWhereIs(s, 0, WindowOpenAt, 0);
    assert s[13..13 + |p|] == p;
  }
}
