/** The usage aggregation of `get_raw_data`: fetch the instance list, drop the
    exporter's own pseudo-instance, and for each instance resolve its limit,
    build the backend query for its billing window, and record the first
    result row when the backend returns any. The backend and the clock are
    parameters: `labels` and `query` answer a request URL with the decoded
    body, or `None` when the request or its decoding fails; `clock(i)` is the
    local time read while building the i-th query. */
module Aggregation {
  import opened Basics
  import opened Numerals
  import opened Calendar
  import opened Quota

  /** The backend's self-monitoring job, never billed. */
  const NodeExporter: string := "Node Exporter"

  /** `instance_list.retain(|x| x != "Node Exporter")`: the list without the
      exporter, every other occurrence kept in order. */
  function Retained(xs: seq<string>): (r: seq<string>)
    ensures forall x :: x in r <==> x in xs && x != NodeExporter
    ensures multiset(r) == multiset(xs)[NodeExporter := 0]
  {
    if xs == [] then []
    else
      assert xs == [xs[0]] + xs[1..];
      (if xs[0] == NodeExporter then [] else [xs[0]]) + Retained(xs[1..])
  }

  /** Retaining distributes over concatenation, so the kept instances stay
      in their original order. */
  lemma {:induction false} RetainedAppend(a: seq<string>, b: seq<string>)
    ensures Retained(a + b) == Retained(a) + Retained(b)
  {
    if a == [] {
      assert a + b == b;
    } else {
      var h := if a[0] == NodeExporter then [] else [a[0]];
      calc {
        Retained(a + b);
        { assert (a + b)[0] == a[0] && (a + b)[1..] == a[1..] + b; }
        h + Retained(a[1..] + b);
        { RetainedAppend(a[1..], b); }
        h + (Retained(a[1..]) + Retained(b));
        (h + Retained(a[1..])) + Retained(b);
      }
    }
  }

  /** The label-values request for the instance list. */
  function LabelUrl(prometheusUrl: string): string {
    prometheusUrl + "/api/v1/label/job/values"
  }

  /** The query URL `generate_url` formats for an instance and a window:
      the sum of the receive and the transmit counter increases, each term
      selecting the same instance over the same window. */
  function QueryUrl(prometheusUrl: string, instance: string, seconds: int): string {
    prometheusUrl + ("/api/v1/query?query=sum (increase(node_network_receive_bytes_total{instance=\"" +
    (instance + ("\"}[" + (ShowInt(seconds) + ("s])" +
    (" %2B increase(node_network_transmit_bytes_total{instance=\"" +
    (instance + ("\"}[" + (ShowInt(seconds) + ("s])" + ")"))))))))))
  }

  /** `generate_url`: the window is computed from the reset day and the clock,
      and panics as that computation does. */
  function GenerateUrl(prometheusUrl: string, resetDay: u8, instance: string, now: ValidTime): (r: Outcome<string>)
    ensures r.Panic? <==> SecondsFromResetDay(resetDay, now).Panic?
    ensures r.Ok? ==> r.value == QueryUrl(prometheusUrl, instance, SecondsFromResetDay(resetDay, now).value)
  {
    match SecondsFromResetDay(resetDay, now)
    case Panic(e) => Panic(e)
    case Ok(seconds) => Ok(QueryUrl(prometheusUrl, instance, seconds))
  }

  /** Two strings that each continue with a separator absent from their
      heads split at the same place. */
  lemma {:induction false} SplitAtSeparator(sep: char, x: seq<char>, y: seq<char>, x': seq<char>, y': seq<char>)
    requires sep !in x && sep !in x'
    requires x + ([sep] + y) == x' + ([sep] + y')
    ensures x == x' && y == y'
  {
    var s := x + ([sep] + y);
    assert |x| == |x'| by {
      assert s[|x|] == sep && s[|x'|] == sep;
    }
    assert x == s[..|x|] == x';
    assert y == s[|x| + 1..] == y';
  }

  lemma {:induction false} DropPrefix(a: seq<char>, x: seq<char>, y: seq<char>)
    requires a + x == a + y
    ensures x == y
  {
    assert x == (a + x)[|a|..];
  }

  /** The shape of the query URL: a string whose instance is closed by a
      quote and whose window is closed by an `s` gives both back. */
  lemma {:induction false} QueryShapeInjective(b: seq<char>, p: seq<char>, q: seq<char>, s: seq<char>, m: seq<char>,
                                               c: seq<char>, i1: seq<char>, w1: seq<char>, i2: seq<char>, w2: seq<char>)
    requires |q| >= 1 && q[0] == '"' && |s| >= 1 && s[0] == 's'
    requires '"' !in i1 && '"' !in i2 && 's' !in w1 && 's' !in w2
    requires b + (p + (i1 + (q + (w1 + (s + (m + (i1 + (q + (w1 + (s + c)))))))))) ==
             b + (p + (i2 + (q + (w2 + (s + (m + (i2 + (q + (w2 + (s + c))))))))))
    ensures i1 == i2 && w1 == w2
  {
    DropPrefix(b, p + (i1 + (q + (w1 + (s + (m + (i1 + (q + (w1 + (s + c))))))))),
                  p + (i2 + (q + (w2 + (s + (m + (i2 + (q + (w2 + (s + c))))))))));
    var r1 := s[1..] + (m + (i1 + (q + (w1 + (s + c)))));
    var r2 := s[1..] + (m + (i2 + (q + (w2 + (s + c)))));
    assert s + (m + (i1 + (q + (w1 + (s + c))))) == [s[0]] + r1;
    assert s + (m + (i2 + (q + (w2 + (s + c))))) == [s[0]] + r2;
    var t1 := q[1..] + (w1 + ([s[0]] + r1));
    var t2 := q[1..] + (w2 + ([s[0]] + r2));
    assert q + (w1 + ([s[0]] + r1)) == [q[0]] + t1;
    assert q + (w2 + ([s[0]] + r2)) == [q[0]] + t2;
    DropPrefix(p, i1 + ([q[0]] + t1), i2 + ([q[0]] + t2));
    SplitAtSeparator('"', i1, t1, i2, t2);
    DropPrefix(q[1..], w1 + ([s[0]] + r1), w2 + ([s[0]] + r2));
    SplitAtSeparator('s', w1, r1, w2, r2);
  }

  /** For instance names without a double quote, the query URL determines
      the instance and the window it was built from. */
  lemma QueryUrlInjective(prometheusUrl: string, i1: string, s1: int, i2: string, s2: int)
    requires '"' !in i1 && '"' !in i2
    requires QueryUrl(prometheusUrl, i1, s1) == QueryUrl(prometheusUrl, i2, s2)
    ensures i1 == i2 && s1 == s2
  {
    QueryShapeInjective(prometheusUrl, "/api/v1/query?query=sum (increase(node_network_receive_bytes_total{instance=\"",
                        "\"}[", "s])", " %2B increase(node_network_transmit_bytes_total{instance=\"", ")",
                        i1, ShowInt(s1), i2, ShowInt(s2));
    ShowIntInjective(s1, s2);
  }

  /** One entry of the report: the counter increase and the quota in bytes. */
  datatype RawLoad = RawLoad(value: real, limit: u64)

  /** The loop body for one instance: a panic, nothing for an empty result
      list, or the load from the first result row. */
  function Step(config: Config, instance: string, now: ValidTime,
                query: string -> Option<seq<real>>): (r: Outcome<Option<RawLoad>>)
    ensures r.Ok? && r.value.Some? ==> r.value.value.limit == ResolveLimit(config, instance).limit
  {
    var limit := ResolveLimit(config, instance);
    match GenerateUrl(config.prometheusUrl, limit.resetDay, instance, now)
    case Panic(e) => Panic(e)
    case Ok(url) =>
      match query(url)
      case None => Panic(FetchFailed)
      case Some(rows) => if |rows| > 0 then Ok(Some(RawLoad(rows[0], limit.limit))) else Ok(None)
  }

  /** One instance panics exactly when its window or its query fails, is
      skipped exactly when its query returns no row, and otherwise carries
      its resolved quota and the first row's value. */
  lemma StepCases(config: Config, instance: string, now: ValidTime, query: string -> Option<seq<real>>)
    ensures var limit := ResolveLimit(config, instance);
            var seconds := SecondsFromResetDay(limit.resetDay, now);
            seconds.Panic? ==> Step(config, instance, now, query) == Panic(seconds.reason)
    ensures var limit := ResolveLimit(config, instance);
            var seconds := SecondsFromResetDay(limit.resetDay, now);
            var r := Step(config, instance, now, query);
            seconds.Ok? ==>
              var rows := query(QueryUrl(config.prometheusUrl, instance, seconds.value));
              (r == Panic(FetchFailed) <==> rows.None?) &&
              (r == Ok(None) <==> rows == Some([])) &&
              (r.Ok? && r.value.Some? <==> rows.Some? && |rows.value| > 0) &&
              (r.Ok? && r.value.Some? ==> r.value.value == RawLoad(rows.value[0], limit.limit))
  {
  }

  /** The outcome of each instance of the pass, in list order; the i-th
      instance reads the clock as `clock(i)`. */
  function Outcomes(config: Config, xs: seq<string>, clock: nat -> ValidTime,
                    query: string -> Option<seq<real>>): (r: seq<Outcome<Option<RawLoad>>>)
    ensures |r| == |xs|
  {
    if xs == [] then []
    else Outcomes(config, xs[..|xs| - 1], clock, query) + [Step(config, xs[|xs| - 1], clock(|xs| - 1), query)]
  }

  /** The j-th outcome is the j-th instance's step at the j-th clock reading. */
  lemma {:induction false} OutcomeAt(config: Config, xs: seq<string>, clock: nat -> ValidTime,
                                     query: string -> Option<seq<real>>, j: nat)
    requires j < |xs|
    ensures Outcomes(config, xs, clock, query)[j] == Step(config, xs[j], clock(j), query)
  {
    if j < |xs| - 1 {
      OutcomeAt(config, xs[..|xs| - 1], clock, query, j);
    }
  }

  /** The report after the first n instances of xs, given their outcomes:
      a panic stops the pass, an instance without rows is skipped, and a
      load is inserted under its instance, replacing an earlier one. */
  function Collect(xs: seq<string>, outs: seq<Outcome<Option<RawLoad>>>, n: nat): Outcome<map<string, RawLoad>>
    requires |outs| == |xs| && n <= |xs|
  {
    if n == 0 then Ok(map[])
    else
      match Collect(xs, outs, n - 1)
      case Panic(e) => Panic(e)
      case Ok(m) =>
        match outs[n - 1]
        case Panic(e) => Panic(e)
        case Ok(None) => Ok(m)
        case Ok(Some(load)) => Ok(m[xs[n - 1] := load])
  }

  /** `get_raw_data` with the backend and the clock as parameters. */
  function RawData(config: Config, labels: string -> Option<seq<string>>,
                   query: string -> Option<seq<real>>, clock: nat -> ValidTime): Outcome<map<string, RawLoad>>
  {
    match labels(LabelUrl(config.prometheusUrl))
    case None => Panic(FetchFailed)
    case Some(list) =>
      var instances := Retained(list);
      Collect(instances, Outcomes(config, instances, clock, query), |instances|)
  }

  /** A panic ends the pass: later instances do not change the outcome. */
  lemma {:induction false} PanicPersists(xs: seq<string>, outs: seq<Outcome<Option<RawLoad>>>, j: nat, n: nat)
    requires |outs| == |xs| && j <= n <= |xs|
    requires Collect(xs, outs, j).Panic?
    ensures Collect(xs, outs, n) == Collect(xs, outs, j)
  {
    if j < n {
      PanicPersists(xs, outs, j, n - 1);
    }
  }

  /** The body of the `get_raw_data` loop for one instance and its resolved
      limit: build the query URL, ask the backend, and keep the first row. */
  method FetchLoad(config: Config, limit: Limit, instance: string, now: ValidTime,
                   query: string -> Option<seq<real>>)
    returns (out: Outcome<Option<RawLoad>>)
    requires limit == ResolveLimit(config, instance)
    ensures out == Step(config, instance, now, query)
  {
    var url := GenerateUrl(config.prometheusUrl, limit.resetDay, instance, now);
    if url.Panic? {
      return Panic(url.reason);
    }
    var data := query(url.value);
    if data.None? {
      return Panic(FetchFailed);
    }
    if |data.value| > 0 {
      out := Ok(Some(RawLoad(data.value[0], limit.limit)));
    } else {
      out := Ok(None);
    }
  }

  /** The loop of `get_raw_data`: the exporter is dropped from the fetched
      list in place, then each instance's result is inserted into the map
      only when the backend returned a row. */
  method GetRawData(config: Config, labels: string -> Option<seq<string>>,
                    query: string -> Option<seq<real>>, clock: nat -> ValidTime)
    returns (r: Outcome<map<string, RawLoad>>)
    ensures r == RawData(config, labels, query, clock)
  {
    var returnData: map<string, RawLoad> := map[];
    var converted := Units.ByteConversion("9999tb", config.unitType);
    FallbackConverts(config.unitType);
    var limitFallback := Limit(1, converted.value.value);
    assert limitFallback == FallbackLimit(config.unitType);
    var fetched := labels(LabelUrl(config.prometheusUrl));
    if fetched.None? {
      return Panic(FetchFailed);
    }
    var instanceList := fetched.value;
    instanceList := Retained(instanceList);
    ghost var outs := Outcomes(config, instanceList, clock, query);
    for i := 0 to |instanceList|
      invariant Collect(instanceList, outs, i) == Ok(returnData)
    {
      var instance := instanceList[i];
      var limit := if instance in config.limits then config.limits[instance] else limitFallback;
      var out := FetchLoad(config, limit, instance, clock(i), query);
      OutcomeAt(config, instanceList, clock, query, i);
      if out.Panic? {
        PanicPersists(instanceList, outs, i + 1, |instanceList|);
        return Panic(out.reason);
      }
      if out.value.Some? {
        returnData := returnData[instance := out.value.value];
      }
    }
    r := Ok(returnData);
  }

  /** Some outcome among the first n is a panic. */
  predicate PanicAmong(outs: seq<Outcome<Option<RawLoad>>>, n: nat) {
    exists j :: 0 <= j < n && j < |outs| && outs[j].Panic?
  }

  /** The pass fails exactly when one of the first n instances fails. */
  lemma {:induction false} CollectFailFast(xs: seq<string>, outs: seq<Outcome<Option<RawLoad>>>, n: nat)
    requires |outs| == |xs| && n <= |xs|
    ensures Collect(xs, outs, n).Panic? <==> PanicAmong(outs, n)
  {
    if n > 0 {
      CollectFailFast(xs, outs, n - 1);
    }
  }

  /** A key is in m exactly when one of its occurrences among the first n
      instances returned a row. */
  ghost predicate PresentIffRow(xs: seq<string>, outs: seq<Outcome<Option<RawLoad>>>, n: nat, m: map<string, RawLoad>) {
    forall k :: k in m <==>
      exists j :: 0 <= j < n && j < |xs| && j < |outs| && xs[j] == k && outs[j].Ok? && outs[j].value.Some?
  }

  /** Each entry of m is the load of the last occurrence of its key among the
      first n instances that returned a row. */
  ghost predicate LastRowWins(xs: seq<string>, outs: seq<Outcome<Option<RawLoad>>>, n: nat, m: map<string, RawLoad>) {
    forall k :: k in m ==>
      exists j :: 0 <= j < n && j < |xs| && j < |outs| && xs[j] == k && outs[j] == Ok(Some(m[k])) &&
        forall j' :: j < j' < n && j' < |xs| && j' < |outs| && xs[j'] == k ==> outs[j'] == Ok(None)
  }

  /** A key is reported exactly when one of its occurrences among the first n
      instances returned a row. */
  lemma {:induction false} CollectPresence(xs: seq<string>, outs: seq<Outcome<Option<RawLoad>>>, n: nat)
    requires |outs| == |xs| && n <= |xs| && Collect(xs, outs, n).Ok?
    ensures PresentIffRow(xs, outs, n, Collect(xs, outs, n).value)
  {
    if n > 0 {
      CollectPresence(xs, outs, n - 1);
      var m := Collect(xs, outs, n - 1).value;
      assert PresentIffRow(xs, outs, n - 1, m);
      var m' := Collect(xs, outs, n).value;
      forall k
        ensures k in m' <==>
          exists j :: 0 <= j < n && j < |xs| && j < |outs| && xs[j] == k && outs[j].Ok? && outs[j].value.Some?
      {
        if k in m' && !(k in m) {
          assert xs[n - 1] == k && outs[n - 1].Ok? && outs[n - 1].value.Some?;
        }
      }
    }
  }

  /** Each reported entry is the load of the last occurrence of its key that
      returned a row: a later insert under the same name replaces an earlier
      one. */
  lemma {:induction false} CollectLastWins(xs: seq<string>, outs: seq<Outcome<Option<RawLoad>>>, n: nat)
    requires |outs| == |xs| && n <= |xs| && Collect(xs, outs, n).Ok?
    ensures LastRowWins(xs, outs, n, Collect(xs, outs, n).value)
  {
    if n > 0 {
      CollectLastWins(xs, outs, n - 1);
      var m := Collect(xs, outs, n - 1).value;
      var m' := Collect(xs, outs, n).value;
      forall k | k in m'
        ensures exists j :: 0 <= j < n && j < |xs| && j < |outs| && xs[j] == k && outs[j] == Ok(Some(m'[k])) &&
                            forall j' :: j < j' < n && j' < |xs| && j' < |outs| && xs[j'] == k ==> outs[j'] == Ok(None)
      {
        if outs[n - 1].Ok? && outs[n - 1].value.Some? && xs[n - 1] == k {
          assert outs[n - 1] == Ok(Some(m'[k]));
        } else {
          assert k in m && m'[k] == m[k];
          var j :| 0 <= j < n - 1 && j < |xs| && j < |outs| && xs[j] == k && outs[j] == Ok(Some(m[k])) &&
            forall j' :: j < j' < n - 1 && j' < |xs| && j' < |outs| && xs[j'] == k ==> outs[j'] == Ok(None);
          assert xs[n - 1] == k ==> outs[n - 1] == Ok(None);
        }
      }
    }
  }

  /** An instance is reported exactly when one of its occurrences in the
      retained list got a row back: an instance whose every query came back
      empty is absent, not zero. */
  lemma RawDataPresence(config: Config, labels: string -> Option<seq<string>>,
                        query: string -> Option<seq<real>>, clock: nat -> ValidTime)
    requires RawData(config, labels, query, clock).Ok?
    ensures labels(LabelUrl(config.prometheusUrl)).Some?
    ensures var xs := Retained(labels(LabelUrl(config.prometheusUrl)).value);
            PresentIffRow(xs, Outcomes(config, xs, clock, query), |xs|, RawData(config, labels, query, clock).value)
  {
    var xs := Retained(labels(LabelUrl(config.prometheusUrl)).value);
    CollectPresence(xs, Outcomes(config, xs, clock, query), |xs|);
  }

  /** A name listed twice keeps the load of its last occurrence that got a
      row back. */
  lemma RawDataLastWins(config: Config, labels: string -> Option<seq<string>>,
                        query: string -> Option<seq<real>>, clock: nat -> ValidTime)
    requires RawData(config, labels, query, clock).Ok?
    ensures labels(LabelUrl(config.prometheusUrl)).Some?
    ensures var xs := Retained(labels(LabelUrl(config.prometheusUrl)).value);
            LastRowWins(xs, Outcomes(config, xs, clock, query), |xs|, RawData(config, labels, query, clock).value)
  {
    var xs := Retained(labels(LabelUrl(config.prometheusUrl)).value);
    CollectLastWins(xs, Outcomes(config, xs, clock, query), |xs|);
  }

  /** Only instances of the fetched list are reported, never the exporter,
      and each with the quota its limit resolves to. */
  lemma RawDataEntries(config: Config, labels: string -> Option<seq<string>>,
                       query: string -> Option<seq<real>>, clock: nat -> ValidTime)
    requires RawData(config, labels, query, clock).Ok?
    ensures labels(LabelUrl(config.prometheusUrl)).Some?
    ensures var list := labels(LabelUrl(config.prometheusUrl)).value;
            var m := RawData(config, labels, query, clock).value;
            NodeExporter !in m &&
            (forall k :: k in m ==> k in list) &&
            (forall k :: k in m ==> m[k].limit == ResolveLimit(config, k).limit)
  {
    var xs := Retained(labels(LabelUrl(config.prometheusUrl)).value);
    var outs := Outcomes(config, xs, clock, query);
    var m := Collect(xs, outs, |xs|).value;
    CollectLastWins(xs, outs, |xs|);
    forall k | k in m
      ensures k in xs && m[k].limit == ResolveLimit(config, k).limit
    {
      var j :| 0 <= j < |xs| && xs[j] == k && outs[j] == Ok(Some(m[k]));
      OutcomeAt(config, xs, clock, query, j);
    }
  }

  /** The report fails exactly when the instance list cannot be fetched or
      one retained instance's window or query fails; there is no partial
      report. */
  lemma RawDataFailFast(config: Config, labels: string -> Option<seq<string>>,
                        query: string -> Option<seq<real>>, clock: nat -> ValidTime)
    ensures RawData(config, labels, query, clock).Panic? <==>
              labels(LabelUrl(config.prometheusUrl)).None? ||
              (var xs := Retained(labels(LabelUrl(config.prometheusUrl)).value);
               PanicAmong(Outcomes(config, xs, clock, query), |xs|))
  {
    var fetched := labels(LabelUrl(config.prometheusUrl));
    if fetched.Some? {
      var xs := Retained(fetched.value);
      var outs := Outcomes(config, xs, clock, query);
      assert RawData(config, labels, query, clock) == Collect(xs, outs, |xs|);
      CollectFailFast(xs, outs, |xs|);
    } else {
      assert RawData(config, labels, query, clock) == Panic(FetchFailed);
    }
  }
}
