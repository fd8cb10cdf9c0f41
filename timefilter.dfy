/** The browser's time-range filter (`getFilteredEarthquakeData`): with the
    filter `'all'` or no data the list is returned as it is; otherwise only
    the records whose `time` is strictly after the cut-off remain, in their
    order. A record's `time` property is read through `time`: None stands for
    a missing property or an invalid date, which compare false. */
module TimeFilter {
  import opened JsString

  /** `new Date('2025-03-28T12:00:00Z')` in milliseconds. */
  const RecentCutoff: int := 1743163200000

  /** `eq.time > RECENT_DATE_CUTOFF`. */
  predicate IsRecent(t: Option<int>) {
    t.Some? && t.value > RecentCutoff
  }

  /** `data.filter(eq => eq.time > RECENT_DATE_CUTOFF)`. */
  function Recent<T>(data: seq<T>, time: T -> Option<int>): (r: seq<T>)
    ensures |r| <= |data|
    ensures forall x :: x in r ==> x in data && IsRecent(time(x))
  {
    if data == [] then []
    else (if IsRecent(time(data[0])) then [data[0]] else []) + Recent(data[1..], time)
  }

  /** `getFilteredEarthquakeData` with the current filter setting. */
  function Filtered<T>(data: seq<T>, filter: string, time: T -> Option<int>): (r: seq<T>)
    ensures filter == "all" || data == [] ==> r == data
    ensures filter != "all" ==> r == Recent(data, time)
  {
    if filter == "all" || |data| == 0 then data else Recent(data, time)
  }

  // ---------------------------------------------------------------------------
  // properties

  /** Every recent record of the data is kept. */
  lemma {:induction false} RecentComplete<T>(data: seq<T>, time: T -> Option<int>)
    ensures forall x :: x in data && IsRecent(time(x)) ==> x in Recent(data, time)
  {
    if data != [] {
      RecentComplete(data[1..], time);
      assert forall x :: x in data ==> x == data[0] || x in data[1..];
    }
  }

  /** Filtering a concatenation filters each part and keeps them in order:
      the relative order of the kept records is the order of the data. */
  lemma {:induction false} RecentAppend<T>(a: seq<T>, b: seq<T>, time: T -> Option<int>)
    ensures Recent(a + b, time) == Recent(a, time) + Recent(b, time)
  {
    if a == [] {
      assert a + b == b;
    } else {
      var head := if IsRecent(time(a[0])) then [a[0]] else [];
      assert (a + b)[0] == a[0];
      assert (a + b)[1..] == a[1..] + b;
      calc {
        Recent(a + b, time);
        head + Recent(a[1..] + b, time);
        { RecentAppend(a[1..], b, time); }
        head + (Recent(a[1..], time) + Recent(b, time));
        (head + Recent(a[1..], time)) + Recent(b, time);
      }
    }
  }

  /** Apart from the `'all'` setting, the filter keeps exactly the recent
      records. */
  lemma FilterKeepsExactlyRecent<T>(data: seq<T>, filter: string, time: T -> Option<int>)
    requires filter != "all"
    ensures forall x :: x in Filtered(data, filter, time) <==> x in data && IsRecent(time(x))
  {
    RecentComplete(data, time);
  }

  /** Records without a `time` property are never recent: the filter then
      empties any list. */
  lemma {:induction false} NoTimeNoneRecent<T>(data: seq<T>, filter: string)
    requires filter != "all"
    ensures Filtered(data, filter, (x: T) => None) == []
  {
    if data != [] {
      NoTimeNoneRecent(data[1..], filter);
    }
  }
}
