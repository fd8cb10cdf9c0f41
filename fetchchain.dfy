/** The page script's `fetchEarthquakeData`: the observatory page is asked
    for along a fixed chain of sources (directly, then through a first and a
    second CORS proxy; on GitHub Pages without the direct attempt), the
    first ok response is kept, and the embedded sample table stands in when
    no source answers, when the answer is empty or when it does not parse.
    The network is the parameter `fetch`, the browser's HTML parser the
    parameter `dom`. */
module FetchChain {
  import opened JsString
  import opened TableLocator
  import opened ChartTable

  /** Where a request goes: the observatory itself, `corsproxy.io`, or
      `api.allorigins.win`. */
  datatype Source = Direct | PrimaryProxy | BackupProxy

  /** What one request gives: a thrown error or a response that is not ok
      (both end in the same `catch`), or an ok response and its text. */
  datatype Outcome = Failed | Fetched(body: string)

  /** The order of the attempts. */
  function Chain(onPages: bool): (r: seq<Source>)
    ensures onPages <==> Direct !in r
    ensures |r| > 0 && r[|r| - 1] == BackupProxy
  {
    if onPages then [PrimaryProxy, BackupProxy] else [Direct, PrimaryProxy, BackupProxy]
  }

  /** The sources asked, in order: up to and including the first that
      answers ok. */
  function Attempted(chain: seq<Source>, fetch: Source -> Outcome): seq<Source> {
    if chain == [] then []
    else if fetch(chain[0]).Fetched? then [chain[0]]
    else [chain[0]] + Attempted(chain[1..], fetch)
  }

  /** The text of the first ok response, None when every source fails. */
  function FirstBody(chain: seq<Source>, fetch: Source -> Outcome): Option<string> {
    if chain == [] then None
    else if fetch(chain[0]).Fetched? then Some(fetch(chain[0]).body)
    else FirstBody(chain[1..], fetch)
  }

  /** `parseHtmlTableData(getSampleEarthquakeData())`; None where it throws. */
  function SampleReadings(dom: string -> seq<Table>, sample: string): Option<seq<Reading>> {
    ParseChartTable(dom(sample))
  }

  /** What the call resolves to, None where it rejects. An empty text and a
      text that does not parse both end in the outer `catch`, which parses
      the sample; a sample that does not parse rejects there. */
  function PageResult(onPages: bool, fetch: Source -> Outcome, dom: string -> seq<Table>, sample: string)
    : Option<seq<Reading>>
  {
    match FirstBody(Chain(onPages), fetch)
    case None => SampleReadings(dom, sample)
    case Some(htmlText) =>
      if htmlText == [] then SampleReadings(dom, sample)
      else
        match ParseChartTable(dom(htmlText))
        case Some(readings) => Some(readings)
        case None => SampleReadings(dom, sample)
  }

  /** The attempts as the source writes them, one nested `try` per source.
      `attempts` records which sources were asked. */
  method FetchEarthquakeData(onPages: bool, fetch: Source -> Outcome, dom: string -> seq<Table>, sample: string)
    returns (attempts: seq<Source>, r: Option<seq<Reading>>)
    ensures attempts == Attempted(Chain(onPages), fetch)
    ensures r == PageResult(onPages, fetch, dom, sample)
  {
    var htmlText := "";
    attempts := [];
    // the sources not asked yet
    ghost var pending := Chain(onPages);
    ChainSteps(onPages);
    if onPages {
      attempts := attempts + [PrimaryProxy];
      var proxyResponse := fetch(PrimaryProxy);
      if proxyResponse.Fetched? {
        htmlText := proxyResponse.body;
      } else {
        Skip(pending, fetch);
        pending := pending[1..];
        attempts := attempts + [BackupProxy];
        var backupResponse := fetch(BackupProxy);
        if backupResponse.Fetched? {
          htmlText := backupResponse.body;
        } else {
          Skip(pending, fetch);
          pending := pending[1..];
          r := SampleReadings(dom, sample);
          return;
        }
      }
    } else {
      attempts := attempts + [Direct];
      var response := fetch(Direct);
      if response.Fetched? {
        htmlText := response.body;
      } else {
        Skip(pending, fetch);
        pending := pending[1..];
        attempts := attempts + [PrimaryProxy];
        var proxyResponse := fetch(PrimaryProxy);
        if proxyResponse.Fetched? {
          htmlText := proxyResponse.body;
        } else {
          Skip(pending, fetch);
          pending := pending[1..];
          attempts := attempts + [BackupProxy];
          var backupResponse := fetch(BackupProxy);
          if backupResponse.Fetched? {
            htmlText := backupResponse.body;
          } else {
            Skip(pending, fetch);
            pending := pending[1..];
            r := SampleReadings(dom, sample);
            return;
          }
        }
      }
    }
    assert FirstBody(Chain(onPages), fetch) == FirstBody(pending, fetch) == Some(htmlText);
    if htmlText == [] {
      r := SampleReadings(dom, sample);
      return;
    }
    var parsed := ParseChartTable(dom(htmlText));
    if parsed.Some? {
      r := parsed;
    } else {
      r := SampleReadings(dom, sample);
    }
  }

  /** A source that fails passes the request on to the rest of the chain. */
  lemma Skip(chain: seq<Source>, fetch: Source -> Outcome)
    requires chain != [] && fetch(chain[0]).Failed?
    ensures Attempted(chain, fetch) == [chain[0]] + Attempted(chain[1..], fetch)
    ensures FirstBody(chain, fetch) == FirstBody(chain[1..], fetch)
  {
  }

  /** The chain, one source at a time. */
  lemma ChainSteps(onPages: bool)
    ensures Chain(onPages)[1..] == (if onPages then [BackupProxy] else [PrimaryProxy, BackupProxy])
    ensures [PrimaryProxy, BackupProxy][1..] == [BackupProxy] && [BackupProxy][1..] == []
  {
  }

  // ---------------------------------------------------------------------------
  // properties

  /** The sources asked are a prefix of the chain; every one but the last
      failed; the last is the first that answered, or the chain ran out; and
      the text kept is the last one's. */
  lemma {:induction false} AttemptedShape(chain: seq<Source>, fetch: Source -> Outcome)
    ensures var a := Attempted(chain, fetch);
      && |a| <= |chain| && a == chain[..|a|]
      && (chain != [] ==> |a| > 0)
      && (forall k :: 0 <= k < |a| - 1 ==> fetch(a[k]).Failed?)
      && (|a| < |chain| ==> fetch(a[|a| - 1]).Fetched?)
      && (FirstBody(chain, fetch).Some? <==> a != [] && fetch(a[|a| - 1]).Fetched?)
      && (FirstBody(chain, fetch).Some? ==> FirstBody(chain, fetch).value == fetch(a[|a| - 1]).body)
  {
    if chain != [] && fetch(chain[0]).Failed? {
      var rest := Attempted(chain[1..], fetch);
      AttemptedShape(chain[1..], fetch);
      var a := Attempted(chain, fetch);
      assert a == [chain[0]] + rest;
      assert a == chain[..|a|] by {
        assert chain == [chain[0]] + chain[1..];
      }
      forall k | 0 <= k < |a| - 1 ensures fetch(a[k]).Failed? {
        if k > 0 { assert a[k] == rest[k - 1]; }
      }
      if rest != [] { assert a[|a| - 1] == rest[|rest| - 1]; }
    }
  }

  /** Every source the chain asks failed before the answer that was kept:
      no source is asked once one has answered ok. */
  lemma {:induction false} FirstBodyIsFirstAnswer(chain: seq<Source>, fetch: Source -> Outcome)
    ensures FirstBody(chain, fetch).None? <==> forall k :: 0 <= k < |chain| ==> fetch(chain[k]).Failed?
  {
    if chain != [] {
      FirstBodyIsFirstAnswer(chain[1..], fetch);
      if fetch(chain[0]).Failed? {
        assert forall k :: 1 <= k < |chain| ==> chain[k] == chain[1..][k - 1];
      }
    }
  }

  /** On GitHub Pages the observatory is never asked directly; elsewhere it
      is always asked first. */
  lemma PagesSkipDirect(onPages: bool, fetch: Source -> Outcome)
    ensures onPages ==> Direct !in Attempted(Chain(onPages), fetch)
    ensures !onPages ==> Attempted(Chain(onPages), fetch)[0] == Direct
  {
    var c := Chain(onPages);
    AttemptedShape(c, fetch);
    var a := Attempted(c, fetch);
    if onPages {
      assert forall k :: 0 <= k < |a| ==> a[k] == c[k];
    }
  }

  /** When no source answers, all of them were asked and the sample is
      parsed. */
  lemma AllFailedUsesSample(onPages: bool, fetch: Source -> Outcome, dom: string -> seq<Table>, sample: string)
    requires forall s :: fetch(s).Failed?
    ensures Attempted(Chain(onPages), fetch) == Chain(onPages)
    ensures PageResult(onPages, fetch, dom, sample) == SampleReadings(dom, sample)
  {
    var c := Chain(onPages);
    ChainSteps(onPages);
    Skip(c, fetch);
    Skip(c[1..], fetch);
    if !onPages { Skip(c[1..][1..], fetch); }
  }

  /** An ok response with an empty text ends the chain: no later source is
      asked, and the sample is parsed. */
  lemma EmptyAnswerUsesSample(onPages: bool, fetch: Source -> Outcome, dom: string -> seq<Table>, sample: string)
    requires FirstBody(Chain(onPages), fetch) == Some([])
    ensures PageResult(onPages, fetch, dom, sample) == SampleReadings(dom, sample)
    ensures var a := Attempted(Chain(onPages), fetch);
      a != [] && fetch(a[|a| - 1]) == Fetched([])
  {
    AttemptedShape(Chain(onPages), fetch);
  }

  /** A non-empty answer that parses is what the call resolves to. */
  lemma AnswerUsed(onPages: bool, fetch: Source -> Outcome, dom: string -> seq<Table>, sample: string, body: string)
    requires FirstBody(Chain(onPages), fetch) == Some(body) && body != []
    requires ParseChartTable(dom(body)).Some?
    ensures PageResult(onPages, fetch, dom, sample) == ParseChartTable(dom(body))
  {
  }

  /** The call resolves whenever the sample parses; it rejects only when a
      page that does not parse meets a sample that does not parse either. */
  lemma ResolvesWithSample(onPages: bool, fetch: Source -> Outcome, dom: string -> seq<Table>, sample: string)
    ensures PageResult(onPages, fetch, dom, sample).None? <==>
      && SampleReadings(dom, sample).None?
      && (|| FirstBody(Chain(onPages), fetch).None?
          || FirstBody(Chain(onPages), fetch).value == []
          || ParseChartTable(dom(FirstBody(Chain(onPages), fetch).value)).None?)
  {
  }
}
