/** The earthquake record the batch scraper emits, and its newest-first
    ordering (`sort((a, b) => b.time - a.time)`, a stable sort). */
module Events {
  import opened JsNumber

  /** One accepted earthquake. Latitude, longitude and magnitude are known to
      be numbers; depth may be NaN. `time` is the instant in milliseconds. */
  datatype Quake = Quake(
    title: string,
    link: string,
    latitude: real,
    longitude: real,
    depth: Num,
    magnitude: real,
    time: int,
    description: string)

  /** Non-increasing in time: newest first. */
  predicate NewestFirst(qs: seq<Quake>) {
    forall i, j :: 0 <= i < j < |qs| ==> qs[i].time >= qs[j].time
  }

  /** The records of `qs` with time `t`, in their order in `qs`. */
  function WithTime(qs: seq<Quake>, t: int): (r: seq<Quake>)
    ensures |r| <= |qs|
    ensures forall k :: 0 <= k < |r| ==> r[k].time == t
  {
    if qs == [] then []
    else (if qs[0].time == t then [qs[0]] else []) + WithTime(qs[1..], t)
  }

  /** Puts `q` in front of the first record that is not newer than it. */
  function Insert(q: Quake, qs: seq<Quake>): (r: seq<Quake>)
    ensures |r| == |qs| + 1
    ensures multiset(r) == multiset(qs) + multiset{q}
    ensures forall k :: 0 <= k < |r| ==> r[k] == q || r[k] in qs
  {
    if qs == [] || q.time >= qs[0].time then [q] + qs
    else
      assert qs == [qs[0]] + qs[1..];
      [qs[0]] + Insert(q, qs[1..])
  }

  /** The newest-first order of `qs`; records with equal times keep their
      order. */
  function SortNewestFirst(qs: seq<Quake>): (r: seq<Quake>)
    ensures |r| == |qs|
    ensures multiset(r) == multiset(qs)
  {
    if qs == [] then []
    else
      assert qs == [qs[0]] + qs[1..];
      Insert(qs[0], SortNewestFirst(qs[1..]))
  }

  // ---------------------------------------------------------------------------
  // properties

  lemma {:induction false} InsertNewestFirst(q: Quake, qs: seq<Quake>)
    requires NewestFirst(qs)
    ensures NewestFirst(Insert(q, qs))
  {
    if qs != [] && q.time < qs[0].time {
      InsertNewestFirst(q, qs[1..]);
      var r := Insert(q, qs);
      var tail := Insert(q, qs[1..]);
      assert r == [qs[0]] + tail;
      forall k | 0 <= k < |tail| ensures qs[0].time >= tail[k].time {
        assert tail[k] == q || tail[k] in qs[1..];
      }
    }
  }

  /** The result is ordered newest first. */
  lemma {:induction false} SortIsNewestFirst(qs: seq<Quake>)
    ensures NewestFirst(SortNewestFirst(qs))
  {
    if qs != [] {
      SortIsNewestFirst(qs[1..]);
      InsertNewestFirst(qs[0], SortNewestFirst(qs[1..]));
    }
  }

  lemma {:induction false} InsertStable(q: Quake, qs: seq<Quake>, t: int)
    ensures WithTime(Insert(q, qs), t) == WithTime([q] + qs, t)
  {
    if qs != [] && q.time < qs[0].time {
      var a, rest := qs[0], qs[1..];
      var oneA := if a.time == t then [a] else [];
      var oneQ := if q.time == t then [q] else [];
      assert oneA == [] || oneQ == [];
      calc {
        WithTime(Insert(q, qs), t);
        { WithTimeCons(a, Insert(q, rest), t); }
        oneA + WithTime(Insert(q, rest), t);
        { InsertStable(q, rest, t); WithTimeCons(q, rest, t); }
        oneA + (oneQ + WithTime(rest, t));
        oneQ + (oneA + WithTime(rest, t));
        { WithTimeCons(a, rest, t); assert [a] + rest == qs; }
        oneQ + WithTime(qs, t);
        { WithTimeCons(q, qs, t); }
        WithTime([q] + qs, t);
      }
    }
  }

  lemma WithTimeCons(x: Quake, xs: seq<Quake>, t: int)
    ensures WithTime([x] + xs, t) == (if x.time == t then [x] else []) + WithTime(xs, t)
  {
    assert ([x] + xs)[1..] == xs;
  }

  /** The sort is stable: for every time, the records with that time come out
      in the order they went in. */
  lemma {:induction false} SortStable(qs: seq<Quake>, t: int)
    ensures WithTime(SortNewestFirst(qs), t) == WithTime(qs, t)
  {
    if qs != [] {
      var rest := SortNewestFirst(qs[1..]);
      SortStable(qs[1..], t);
      InsertStable(qs[0], rest, t);
      assert ([qs[0]] + rest)[1..] == rest;
    }
  }

  /** Input already newest first is left as it is. */
  lemma {:induction false} SortKeepsSorted(qs: seq<Quake>)
    requires NewestFirst(qs)
    ensures SortNewestFirst(qs) == qs
  {
    if qs != [] {
      assert NewestFirst(qs[1..]);
      SortKeepsSorted(qs[1..]);
    }
  }
}
