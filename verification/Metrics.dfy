/** The metrics collector: percentiles, per-provider totals and the token histogram. */
module Metrics {
  import opened Sequences

  /** A recorded debate, in the fields the aggregates read.  Durations are exact here. */
  datatype DebateMetrics = DebateMetrics(provider: string, tokens: int, duration: real, success: bool)

  datatype ProviderMetrics = ProviderMetrics(
    provider: string, total: int, succeeded: int, failed: int, tokens: int, latencyAvg: real, latencyMax: real)

  datatype PercentileStats = PercentileStats(p50: real, p95: real, p99: real)

  // ----- sorting -----

  /** What `std::sort` does to a vector of doubles. */
  function Sort(xs: seq<real>): (ys: seq<real>)
    ensures |ys| == |xs|
  {
    if xs == [] then [] else Insert(xs[|xs| - 1], Sort(xs[..|xs| - 1]))
  }

  function Insert(x: real, ys: seq<real>): (zs: seq<real>)
    ensures |zs| == |ys| + 1
  {
    if ys == [] || ys[|ys| - 1] <= x then ys + [x]
    else Insert(x, ys[..|ys| - 1]) + [ys[|ys| - 1]]
  }

  predicate Sorted(ys: seq<real>) { forall i, j :: 0 <= i < j < |ys| ==> ys[i] <= ys[j] }

  lemma {:induction false} InsertKeeps(x: real, ys: seq<real>)
    ensures multiset(Insert(x, ys)) == multiset(ys) + multiset{x}
  {
    if ys != [] && ys[|ys| - 1] > x {
      var n := |ys| - 1;
      InsertKeeps(x, ys[..n]);
      assert ys == ys[..n] + [ys[n]];
    }
  }

  lemma {:induction false} InsertSorts(x: real, ys: seq<real>)
    requires Sorted(ys)
    ensures Sorted(Insert(x, ys))
  {
    if ys != [] && ys[|ys| - 1] > x {
      var n := |ys| - 1;
      InsertSorts(x, ys[..n]);
      InsertBelow(x, ys[..n], ys[n]);
      SortedAppend(Insert(x, ys[..n]), ys[n]);
    }
  }

  lemma {:induction false} InsertBelow(x: real, ys: seq<real>, top: real)
    requires x <= top && forall i :: 0 <= i < |ys| ==> ys[i] <= top
    ensures forall i :: 0 <= i < |Insert(x, ys)| ==> Insert(x, ys)[i] <= top
  {
    if ys != [] { InsertBelow(x, ys[..|ys| - 1], top); }
  }

  lemma SortedAppend(ys: seq<real>, top: real)
    requires Sorted(ys) && forall i :: 0 <= i < |ys| ==> ys[i] <= top
    ensures Sorted(ys + [top])
  {
  }

  /** Sorting orders the values and keeps them all. */
  lemma {:induction false} SortSorts(xs: seq<real>)
    ensures Sorted(Sort(xs)) && multiset(Sort(xs)) == multiset(xs)
  {
    if xs != [] {
      var n := |xs| - 1;
      SortSorts(xs[..n]);
      InsertSorts(xs[n], Sort(xs[..n]));
      InsertKeeps(xs[n], Sort(xs[..n]));
      assert xs == xs[..n] + [xs[n]];
    }
  }

  lemma {:induction false} InsertCounts(x: real, ys: seq<real>, p: real -> bool)
    ensures Count(Insert(x, ys), p) == Count(ys, p) + Indicator(p(x))
  {
    var zs := Insert(x, ys);
    if ys == [] || ys[|ys| - 1] <= x {
      assert zs[..|zs| - 1] == ys;
    } else {
      assert zs[..|zs| - 1] == Insert(x, ys[..|ys| - 1]);
      InsertCounts(x, ys[..|ys| - 1], p);
    }
  }

  lemma {:induction false} SortCounts(xs: seq<real>, p: real -> bool)
    ensures Count(Sort(xs), p) == Count(xs, p)
  {
    if xs != [] {
      SortCounts(xs[..|xs| - 1], p);
      InsertCounts(xs[|xs| - 1], Sort(xs[..|xs| - 1]), p);
    }
  }

  lemma LastIsGreatest(xs: seq<real>, ys: seq<real>)
    requires Sorted(ys) && multiset(xs) == multiset(ys) && xs != [] && ys != []
    ensures xs[|xs| - 1] <= ys[|ys| - 1]
  {
    assert xs[|xs| - 1] in multiset(ys);
    var i :| 0 <= i < |ys| && ys[i] == xs[|xs| - 1];
  }

  lemma InitKeeps(xs: seq<real>)
    requires xs != []
    ensures multiset(xs[..|xs| - 1]) == multiset(xs) - multiset{xs[|xs| - 1]}
  {
    assert xs == xs[..|xs| - 1] + [xs[|xs| - 1]];
  }

  /** Two sorted sequences with the same values are the same. */
  lemma {:induction false} SortedUnique(xs: seq<real>, ys: seq<real>)
    requires Sorted(xs) && Sorted(ys) && multiset(xs) == multiset(ys)
    ensures xs == ys
  {
    assert |xs| == |multiset(xs)| == |multiset(ys)| == |ys|;
    if xs != [] {
      LastIsGreatest(xs, ys);
      LastIsGreatest(ys, xs);
      InitKeeps(xs);
      InitKeeps(ys);
      SortedUnique(xs[..|xs| - 1], ys[..|ys| - 1]);
      SameEnds(xs, ys);
    }
  }

  lemma SameEnds(xs: seq<real>, ys: seq<real>)
    requires xs != [] && ys != [] && xs[..|xs| - 1] == ys[..|ys| - 1] && xs[|xs| - 1] == ys[|ys| - 1]
    ensures xs == ys
  {
    assert xs == xs[..|xs| - 1] + [xs[|xs| - 1]];
    assert ys == ys[..|ys| - 1] + [ys[|ys| - 1]];
  }

  // ----- percentiles -----

  function Latencies(debates: seq<DebateMetrics>, provider: string): seq<real> {
    if debates == [] then []
    else
      var d := debates[|debates| - 1];
      Latencies(debates[..|debates| - 1], provider) + if d.provider == provider then [d.duration] else []
  }

  /** The index of the q-th percentile among `n` sorted samples. */
  function Rank(q: nat, n: nat): (k: nat)
    requires q < 100 && n > 0
    ensures k < n && 100 * k <= q * n < 100 * (k + 1)
  {
    assert q * n < 100 * n;
    q * n / 100
  }

  function Percentile(xs: seq<real>, q: nat): real
    requires xs != [] && q < 100
  {
    Sort(xs)[Rank(q, |xs|)]
  }

  function Percentiles(xs: seq<real>): PercentileStats {
    if xs == [] then PercentileStats(0.0, 0.0, 0.0)
    else PercentileStats(Percentile(xs, 50), Percentile(xs, 95), Percentile(xs, 99))
  }

  lemma {:induction false} SortedRank(ys: seq<real>, k: nat, v: real)
    requires Sorted(ys) && k < |ys| && v == ys[k]
    ensures Count(ys, (x: real) => x < v) <= k
    ensures Count(ys, (x: real) => x <= v) >= k + 1
  {
    CountBefore(ys, k, (x: real) => x < v);
    CountUpTo(ys, k + 1, (x: real) => x <= v);
  }

  lemma CountBefore<T>(xs: seq<T>, k: nat, p: T -> bool)
    requires k <= |xs| && forall i :: k <= i < |xs| ==> !p(xs[i])
    ensures Count(xs, p) <= k
  {
    assert xs == xs[..k] + xs[k..];
    CountConcat(xs[..k], xs[k..], p);
    CountZero(xs[k..], p);
  }

  lemma CountUpTo<T>(xs: seq<T>, k: nat, p: T -> bool)
    requires k <= |xs| && forall i :: 0 <= i < k ==> p(xs[i])
    ensures Count(xs, p) >= k
  {
    assert xs == xs[..k] + xs[k..];
    CountConcat(xs[..k], xs[k..], p);
    CountAll(xs[..k], p);
  }

  lemma {:induction false} CountAll<T>(xs: seq<T>, p: T -> bool)
    requires forall i :: 0 <= i < |xs| ==> p(xs[i])
    ensures Count(xs, p) == |xs|
  {
    if xs != [] { CountAll(xs[..|xs| - 1], p); }
  }

  lemma PercentileIsSample(xs: seq<real>, q: nat)
    requires xs != [] && q < 100
    ensures Percentile(xs, q) in xs
  {
    SortSorts(xs);
    assert Percentile(xs, q) in multiset(Sort(xs));
  }

  /** A percentile is a sample with at most floor(q*n/100) samples below it, and more than that at or below it. */
  lemma PercentileRank(xs: seq<real>, q: nat)
    requires xs != [] && q < 100
    ensures var v, k := Percentile(xs, q), Rank(q, |xs|);
      && v in xs
      && Count(xs, (x: real) => x < v) <= k < Count(xs, (x: real) => x <= v)
  {
    var v, k := Percentile(xs, q), Rank(q, |xs|);
    SortSorts(xs);
    PercentileIsSample(xs, q);
    SortedRank(Sort(xs), k, v);
    SortCounts(xs, (x: real) => x < v);
    SortCounts(xs, (x: real) => x <= v);
  }

  /** The percentiles are ordered, and do not depend on the order of recording. */
  lemma PercentilesOrdered(xs: seq<real>, ys: seq<real>)
    requires multiset(xs) == multiset(ys)
    ensures Percentiles(xs) == Percentiles(ys)
    ensures Percentiles(xs).p50 <= Percentiles(xs).p95 <= Percentiles(xs).p99
  {
    SortUnique(xs, ys);
    PercentilesAscend(xs);
  }

  lemma SortUnique(xs: seq<real>, ys: seq<real>)
    requires multiset(xs) == multiset(ys)
    ensures Sort(xs) == Sort(ys) && |xs| == |ys|
  {
    SortSorts(xs);
    SortSorts(ys);
    SortedUnique(Sort(xs), Sort(ys));
    assert |xs| == |multiset(xs)| == |ys|;
  }

  lemma PercentilesAscend(xs: seq<real>)
    ensures Percentiles(xs).p50 <= Percentiles(xs).p95 <= Percentiles(xs).p99
  {
    SortSorts(xs);
    if xs != [] {
      assert Rank(50, |xs|) <= Rank(95, |xs|) <= Rank(99, |xs|);
    }
  }

  // ----- percentiles of recorded debates -----

  function Faster(provider: string, v: real): DebateMetrics -> bool {
    (d: DebateMetrics) => d.provider == provider && d.duration < v
  }

  function NotSlower(provider: string, v: real): DebateMetrics -> bool {
    (d: DebateMetrics) => d.provider == provider && d.duration <= v
  }

  function IsOf(provider: string): DebateMetrics -> bool { (d: DebateMetrics) => d.provider == provider }

  lemma {:induction false} LatenciesAreDurations(debates: seq<DebateMetrics>, provider: string, v: real)
    ensures var xs := Latencies(debates, provider);
      && |xs| == Count(debates, IsOf(provider))
      && Count(xs, (x: real) => x < v) == Count(debates, Faster(provider, v))
      && Count(xs, (x: real) => x <= v) == Count(debates, NotSlower(provider, v))
  {
    if debates != [] {
      var rest, d := debates[..|debates| - 1], debates[|debates| - 1];
      LatenciesAreDurations(rest, provider, v);
      if d.provider == provider {
        CountOneMore(Latencies(rest, provider), d.duration, (x: real) => x < v);
        CountOneMore(Latencies(rest, provider), d.duration, (x: real) => x <= v);
      } else {
        assert Latencies(debates, provider) == Latencies(rest, provider) + [] == Latencies(rest, provider);
      }
    }
  }

  lemma CountOneMore<T>(xs: seq<T>, x: T, p: T -> bool)
    ensures Count(xs + [x], p) == Count(xs, p) + if p(x) then 1 else 0
  {
    assert (xs + [x])[..|xs|] == xs;
  }

  /** `v` is the q-th percentile of a provider's debates: q percent of them, rounded down, bound those below it. */
  predicate IsPercentile(debates: seq<DebateMetrics>, provider: string, q: nat, v: real) {
    var k := q * Count(debates, IsOf(provider)) / 100;
    Count(debates, Faster(provider, v)) <= k < Count(debates, NotSlower(provider, v))
  }

  lemma PercentileOfDebates(debates: seq<DebateMetrics>, provider: string, q: nat)
    requires Latencies(debates, provider) != [] && q < 100
    ensures IsPercentile(debates, provider, q, Percentile(Latencies(debates, provider), q))
  {
    var xs := Latencies(debates, provider);
    PercentileRank(xs, q);
    LatenciesAreDurations(debates, provider, Percentile(xs, q));
  }

  /** The three reported numbers are the 50th, 95th and 99th percentile of the provider's debates; zero without any. */
  lemma ReportedPercentiles(debates: seq<DebateMetrics>, provider: string)
    ensures var s := Percentiles(Latencies(debates, provider));
      if Count(debates, IsOf(provider)) == 0 then s == PercentileStats(0.0, 0.0, 0.0)
      else
        && IsPercentile(debates, provider, 50, s.p50)
        && IsPercentile(debates, provider, 95, s.p95)
        && IsPercentile(debates, provider, 99, s.p99)
  {
    LatenciesAreDurations(debates, provider, 0.0);
    if Latencies(debates, provider) != [] {
      PercentileOfDebates(debates, provider, 50);
      PercentileOfDebates(debates, provider, 95);
      PercentileOfDebates(debates, provider, 99);
    }
  }

  // ----- totals per provider -----

  /** The sum of an integer field over a provider's debates. */
  function Amount(debates: seq<DebateMetrics>, provider: string, field: DebateMetrics -> int): int {
    if debates == [] then 0
    else
      var d := debates[|debates| - 1];
      Amount(debates[..|debates| - 1], provider, field) + if d.provider == provider then field(d) else 0
  }

  function Duration(debates: seq<DebateMetrics>, provider: string): real {
    if debates == [] then 0.0
    else
      var d := debates[|debates| - 1];
      Duration(debates[..|debates| - 1], provider) + if d.provider == provider then d.duration else 0.0
  }

  function Longest(debates: seq<DebateMetrics>, provider: string): real {
    if debates == [] then 0.0
    else
      var d, m := debates[|debates| - 1], Longest(debates[..|debates| - 1], provider);
      if d.provider == provider && d.duration > m then d.duration else m
  }

  function One(d: DebateMetrics): int { 1 }
  function Success(d: DebateMetrics): int { if d.success then 1 else 0 }
  function Failure(d: DebateMetrics): int { if d.success then 0 else 1 }
  function Tokens(d: DebateMetrics): int { d.tokens }

  function StatsOf(debates: seq<DebateMetrics>, provider: string): ProviderMetrics {
    var n := Amount(debates, provider, One);
    ProviderMetrics(provider, n, Amount(debates, provider, Success), Amount(debates, provider, Failure),
      Amount(debates, provider, Tokens), if n > 0 then Duration(debates, provider) / n as real else 0.0,
      Longest(debates, provider))
  }

  /** The counts of a provider: its debates, those that succeeded and those that failed. */
  lemma {:induction false} StatsCount(debates: seq<DebateMetrics>, provider: string)
    ensures var s := StatsOf(debates, provider);
      && s.provider == provider
      && s.total == Count(debates, IsOf(provider))
      && s.succeeded == Count(debates, (d: DebateMetrics) => d.provider == provider && d.success)
      && s.failed == Count(debates, (d: DebateMetrics) => d.provider == provider && !d.success)
  {
    if debates != [] { StatsCount(debates[..|debates| - 1], provider); }
  }

  /** Tokens and time: nothing for no debates, and one more debate adds its own, to its own provider only. */
  lemma StatsAdd(debates: seq<DebateMetrics>, d: DebateMetrics, provider: string)
    ensures Amount([], provider, Tokens) == 0 && Duration([], provider) == 0.0
    ensures StatsOf(debates + [d], provider).tokens
      == StatsOf(debates, provider).tokens + if d.provider == provider then d.tokens else 0
    ensures Duration(debates + [d], provider)
      == Duration(debates, provider) + if d.provider == provider then d.duration else 0.0
  {
    assert (debates + [d])[..|debates|] == debates;
  }

  lemma {:induction false} Outcomes(debates: seq<DebateMetrics>, provider: string)
    ensures var s := StatsOf(debates, provider);
      s.succeeded + s.failed == s.total && s.succeeded >= 0 && s.failed >= 0
  {
    if debates != [] { Outcomes(debates[..|debates| - 1], provider); }
  }

  lemma {:induction false} NoDebates(debates: seq<DebateMetrics>, provider: string)
    ensures Amount(debates, provider, One) >= 0
    ensures Amount(debates, provider, One) == 0 ==> Duration(debates, provider) == 0.0
  {
    if debates != [] { NoDebates(debates[..|debates| - 1], provider); }
  }

  /** The average is exact: times the count it is the total duration. */
  lemma AverageTimesCount(debates: seq<DebateMetrics>, provider: string)
    ensures var s := StatsOf(debates, provider);
      s.latencyAvg * s.total as real == Duration(debates, provider)
  {
    NoDebates(debates, provider);
  }

  /** The reported maximum is that of the provider's durations, or zero if none is positive. */
  lemma {:induction false} LongestIsLongest(debates: seq<DebateMetrics>, provider: string)
    ensures var m := Longest(debates, provider);
      && m >= 0.0
      && (forall i :: 0 <= i < |debates| && debates[i].provider == provider ==> debates[i].duration <= m)
      && (m == 0.0 || exists i :: 0 <= i < |debates| && debates[i].provider == provider && debates[i].duration == m)
  {
    if debates != [] {
      var rest := debates[..|debates| - 1];
      LongestIsLongest(rest, provider);
      assert forall i :: 0 <= i < |rest| ==> rest[i] == debates[i];
      assert debates[|debates| - 1].duration == debates[|debates| - 1].duration;
    }
  }

  function AmountOver(debates: seq<DebateMetrics>, names: seq<string>, field: DebateMetrics -> int): int {
    if names == [] then 0
    else AmountOver(debates, names[..|names| - 1], field) + Amount(debates, names[|names| - 1], field)
  }

  function DurationOver(debates: seq<DebateMetrics>, names: seq<string>): real {
    if names == [] then 0.0
    else DurationOver(debates, names[..|names| - 1]) + Duration(debates, names[|names| - 1])
  }

  function Whole(debates: seq<DebateMetrics>, field: DebateMetrics -> int): int {
    if debates == [] then 0 else Whole(debates[..|debates| - 1], field) + field(debates[|debates| - 1])
  }

  function WholeDuration(debates: seq<DebateMetrics>): real {
    if debates == [] then 0.0 else WholeDuration(debates[..|debates| - 1]) + debates[|debates| - 1].duration
  }

  predicate Distinct(names: seq<string>) { forall i, j :: 0 <= i < j < |names| ==> names[i] != names[j] }

  /** One more debate adds its share once, to its own provider. */
  lemma {:induction false} OneShare(debates: seq<DebateMetrics>, names: seq<string>, field: DebateMetrics -> int)
    requires debates != [] && Distinct(names)
    ensures var d, rest := debates[|debates| - 1], debates[..|debates| - 1];
      && AmountOver(debates, names, field)
           == AmountOver(rest, names, field) + (if d.provider in names then field(d) else 0)
      && DurationOver(debates, names) == DurationOver(rest, names) + (if d.provider in names then d.duration else 0.0)
  {
    if names != [] {
      var n := |names| - 1;
      OneShare(debates, names[..n], field);
      assert names == names[..n] + [names[n]];
    }
  }

  lemma {:induction false} NoShares(names: seq<string>, field: DebateMetrics -> int)
    ensures AmountOver([], names, field) == 0 && DurationOver([], names) == 0.0
  {
    if names != [] { NoShares(names[..|names| - 1], field); }
  }

  /** Conservation: over any distinct names that cover the providers, the shares add up to the whole. */
  lemma {:induction false} SharesAddUp(debates: seq<DebateMetrics>, names: seq<string>, field: DebateMetrics -> int)
    requires Distinct(names) && forall d :: d in debates ==> d.provider in names
    ensures AmountOver(debates, names, field) == Whole(debates, field)
    ensures DurationOver(debates, names) == WholeDuration(debates)
  {
    if debates == [] {
      NoShares(names, field);
    } else {
      OneShare(debates, names, field);
      SharesAddUp(debates[..|debates| - 1], names, field);
    }
  }

  lemma {:induction false} WholeCounts(debates: seq<DebateMetrics>)
    ensures Whole(debates, One) == |debates|
  {
    if debates != [] { WholeCounts(debates[..|debates| - 1]); }
  }

  // ----- the list of all providers -----

  /** The order of `std::map` on its keys: character by character. */
  predicate Before(a: string, b: string) {
    b != "" && (a == "" || a[0] < b[0] || (a[0] == b[0] && Before(a[1..], b[1..])))
  }

  /** The alphabet decides at the first difference, and a text comes before its continuations. */
  lemma {:induction false} BeforeIsAlphabetical(a: string, b: string, k: nat)
    requires k <= |a| && k <= |b| && a[..k] == b[..k]
    requires k == |a| || k == |b| || a[k] != b[k]
    ensures Before(a, b) <==> k < |b| && (k == |a| || a[k] < b[k])
  {
    if k > 0 {
      assert a[0] == a[..k][0] == b[..k][0] == b[0];
      assert a[1..][..k - 1] == a[..k][1..] == b[..k][1..] == b[1..][..k - 1];
      BeforeIsAlphabetical(a[1..], b[1..], k - 1);
    }
  }

  lemma {:induction false} BeforeIsTotal(a: string, b: string)
    ensures a == b || Before(a, b) || Before(b, a)
    ensures !(Before(a, b) && Before(b, a))
  {
    if a != "" && b != "" && a[0] == b[0] {
      BeforeIsTotal(a[1..], b[1..]);
      assert a[1..] == b[1..] ==> a == [a[0]] + b[1..] == b;
    }
  }

  lemma {:induction false} BeforeIsTransitive(a: string, b: string, c: string)
    requires Before(a, b) && Before(b, c)
    ensures Before(a, c)
  {
    if a != "" && a[0] == b[0] && b[0] == c[0] { BeforeIsTransitive(a[1..], b[1..], c[1..]); }
  }

  predicate IsFirst(names: set<string>, p: string) {
    p in names && forall q :: q in names && q != p ==> Before(p, q)
  }

  lemma {:induction false} FirstExists(names: set<string>)
    ensures names == {} || exists p :: IsFirst(names, p)
  {
    if p :| p in names {
      FirstExists(names - {p});
      if q :| IsFirst(names - {p}, q) {
        FirstOfMore(names, p, q);
      } else {
        assert names == {p};
        assert IsFirst(names, p);
      }
    }
  }

  lemma FirstOfMore(names: set<string>, p: string, q: string)
    requires p in names && IsFirst(names - {p}, q)
    ensures IsFirst(names, p) || IsFirst(names, q)
  {
    BeforeIsTotal(p, q);
    if Before(p, q) {
      forall r | r in names && r != p ensures Before(p, r) {
        if r != q { BeforeIsTransitive(p, q, r); }
      }
    }
  }

  predicate Ascending(all: seq<ProviderMetrics>) {
    forall i, j :: 0 <= i < j < |all| ==> Before(all[i].provider, all[j].provider)
  }

  /** One entry with its statistics for every provider that occurs, and no other, in ascending order. */
  predicate AllStats(debates: seq<DebateMetrics>, all: seq<ProviderMetrics>) {
    && Ascending(all)
    && (forall i :: 0 <= i < |all| ==> all[i] == StatsOf(debates, all[i].provider) && Occurs(debates, all[i].provider))
    && (forall i :: 0 <= i < |debates| ==> Lists(all, debates[i].provider))
  }

  predicate Occurs(debates: seq<DebateMetrics>, p: string) {
    exists i :: 0 <= i < |debates| && debates[i].provider == p
  }

  predicate Lists(all: seq<ProviderMetrics>, p: string) {
    exists i :: 0 <= i < |all| && all[i].provider == p
  }

  lemma ListsMore(all: seq<ProviderMetrics>, m: ProviderMetrics)
    ensures forall p :: Lists(all + [m], p) <==> Lists(all, p) || p == m.provider
  {
    var more := all + [m];
    assert forall i :: 0 <= i < |all| ==> more[i] == all[i];
    assert more[|all|] == m;
  }

  function Providers(all: seq<ProviderMetrics>): (names: seq<string>)
    ensures |names| == |all|
  {
    if all == [] then [] else Providers(all[..|all| - 1]) + [all[|all| - 1].provider]
  }

  lemma {:induction false} ProvidersAt(all: seq<ProviderMetrics>, i: nat)
    requires i < |all|
    ensures Providers(all)[i] == all[i].provider
  {
    if i < |all| - 1 { ProvidersAt(all[..|all| - 1], i); }
  }

  function SumOf(all: seq<ProviderMetrics>, field: ProviderMetrics -> int): int {
    if all == [] then 0 else SumOf(all[..|all| - 1], field) + field(all[|all| - 1])
  }

  /** The averages, each times its count, added up. */
  function TimeOf(all: seq<ProviderMetrics>): real {
    if all == [] then 0.0 else TimeOf(all[..|all| - 1]) + Time(all[|all| - 1])
  }

  function Time(m: ProviderMetrics): real { m.latencyAvg * m.total as real }

  function Total(m: ProviderMetrics): int { m.total }
  function Succeeded(m: ProviderMetrics): int { m.succeeded }
  function Failed(m: ProviderMetrics): int { m.failed }
  function TokensOf(m: ProviderMetrics): int { m.tokens }

  lemma {:induction false} SumsAreShares(debates: seq<DebateMetrics>, all: seq<ProviderMetrics>,
                                         f: ProviderMetrics -> int, field: DebateMetrics -> int)
    requires forall i :: 0 <= i < |all| ==> f(all[i]) == Amount(debates, all[i].provider, field)
    ensures SumOf(all, f) == AmountOver(debates, Providers(all), field)
  {
    if all != [] {
      var rest := all[..|all| - 1];
      assert Providers(all)[..|all| - 1] == Providers(rest);
      assert forall i :: 0 <= i < |rest| ==> rest[i] == all[i];
      SumsAreShares(debates, rest, f, field);
    }
  }

  lemma {:induction false} TimesAreShares(debates: seq<DebateMetrics>, all: seq<ProviderMetrics>)
    requires forall i :: 0 <= i < |all| ==> Time(all[i]) == Duration(debates, all[i].provider)
    ensures TimeOf(all) == DurationOver(debates, Providers(all))
  {
    if all != [] {
      var rest := all[..|all| - 1];
      assert Providers(all)[..|all| - 1] == Providers(rest);
      assert forall i :: 0 <= i < |rest| ==> rest[i] == all[i];
      TimesAreShares(debates, rest);
    }
  }

  lemma AllTimes(debates: seq<DebateMetrics>, all: seq<ProviderMetrics>)
    requires forall i :: 0 <= i < |all| ==> all[i] == StatsOf(debates, all[i].provider)
    ensures TimeOf(all) == DurationOver(debates, Providers(all))
  {
    forall i | 0 <= i < |all| ensures Time(all[i]) == Duration(debates, all[i].provider) {
      AverageTimesCount(debates, all[i].provider);
    }
    TimesAreShares(debates, all);
  }

  lemma AscendingIsDistinct(all: seq<ProviderMetrics>)
    requires Ascending(all)
    ensures Distinct(Providers(all))
  {
    forall i, j | 0 <= i < j < |all| ensures Providers(all)[i] != Providers(all)[j] {
      ProvidersAt(all, i);
      ProvidersAt(all, j);
      BeforeIsTotal(all[i].provider, all[j].provider);
    }
  }

  lemma ProviderListed(all: seq<ProviderMetrics>, p: string)
    requires Lists(all, p)
    ensures p in Providers(all)
  {
    var i :| 0 <= i < |all| && all[i].provider == p;
    ProvidersAt(all, i);
  }

  lemma AllStatsCover(debates: seq<DebateMetrics>, all: seq<ProviderMetrics>)
    requires AllStats(debates, all)
    ensures Distinct(Providers(all)) && forall d :: d in debates ==> d.provider in Providers(all)
  {
    AscendingIsDistinct(all);
    forall i | 0 <= i < |debates| ensures debates[i].provider in Providers(all) {
      ProviderListed(all, debates[i].provider);
    }
  }

  /** Nothing is lost or counted twice: the list adds up to the number of debates, their tokens and their time. */
  lemma AllStatsConserve(debates: seq<DebateMetrics>, all: seq<ProviderMetrics>)
    requires AllStats(debates, all)
    ensures SumOf(all, Total) == |debates|
    ensures SumOf(all, Succeeded) == Whole(debates, Success) && SumOf(all, Failed) == Whole(debates, Failure)
    ensures SumOf(all, TokensOf) == Whole(debates, Tokens)
    ensures TimeOf(all) == WholeDuration(debates)
  {
    var names := Providers(all);
    AllStatsCover(debates, all);
    WholeCounts(debates);
    SumsAreShares(debates, all, Total, One);
    SumsAreShares(debates, all, Succeeded, Success);
    SumsAreShares(debates, all, Failed, Failure);
    SumsAreShares(debates, all, TokensOf, Tokens);
    AllTimes(debates, all);
    SharesAddUp(debates, names, One);
    SharesAddUp(debates, names, Success);
    SharesAddUp(debates, names, Failure);
    SharesAddUp(debates, names, Tokens);
  }

  // ----- the token histogram -----

  const BINS := 100

  /** Division of a token count by the bin width: towards zero. */
  function Bin(tokens: int): int { if tokens >= 0 then tokens / 500 else -((-tokens) / 500) }

  function InBin(i: int): DebateMetrics -> bool { (d: DebateMetrics) => Bin(d.tokens) == i }

  function InBins(n: int): DebateMetrics -> bool { (d: DebateMetrics) => 0 <= Bin(d.tokens) < n }

  /** For counts that are not negative, bin `i` is for 500*i up to 500*(i+1). */
  lemma BinRange(tokens: int, i: nat)
    requires tokens >= 0
    ensures Bin(tokens) == i <==> 500 * i <= tokens < 500 * (i + 1)
  {
  }

  /** The first bin also takes the negative counts above -500; a count of -500 is before it. */
  lemma NegativeBins(tokens: int)
    ensures Bin(tokens) == 0 <==> -500 < tokens < 500
    ensures Bin(tokens) < 0 <==> tokens <= -500
    ensures Bin(-500) == -1
  {
  }

  lemma {:induction false} BinsPartition(debates: seq<DebateMetrics>, n: nat)
    ensures Count(debates, InBins(n + 1)) == Count(debates, InBins(n)) + Count(debates, InBin(n))
  {
    if debates != [] { BinsPartition(debates[..|debates| - 1], n); }
  }

  lemma BinStep(debates: seq<DebateMetrics>, k: nat)
    requires k < |debates|
    ensures forall i ::
      Count(debates[..k + 1], InBin(i)) == Count(debates[..k], InBin(i)) + Indicator(Bin(debates[k].tokens) == i)
  {
    assert debates[..k + 1][..k] == debates[..k];
  }

  function SumBins(bins: seq<int>): int {
    if bins == [] then 0 else SumBins(bins[..|bins| - 1]) + bins[|bins| - 1]
  }

  /** The bins below `n` hold together the debates with fewer than 500*n tokens. */
  lemma {:induction false} BinsAddUp(debates: seq<DebateMetrics>, bins: seq<int>)
    requires bins != [] && forall i :: 0 <= i < |bins| ==> bins[i] == Count(debates, InBin(i))
    requires forall d :: d in debates ==> d.tokens > -500
    ensures SumBins(bins) == Count(debates, (d: DebateMetrics) => d.tokens < 500 * |bins|)
  {
    BinsUpTo(debates, bins);
    FewTokens(debates, |bins|);
  }

  lemma {:induction false} FewTokens(debates: seq<DebateMetrics>, n: nat)
    requires n > 0 && forall d :: d in debates ==> d.tokens > -500
    ensures Count(debates, InBins(n)) == Count(debates, (d: DebateMetrics) => d.tokens < 500 * n)
  {
    CountBoth(debates, InBins(n), (d: DebateMetrics) => d.tokens < 500 * n);
  }

  lemma {:induction false} CountBoth<T>(xs: seq<T>, p: T -> bool, q: T -> bool)
    requires forall x :: x in xs ==> p(x) == q(x)
    ensures Count(xs, p) == Count(xs, q)
  {
    if xs != [] { CountBoth(xs[..|xs| - 1], p, q); }
  }

  lemma {:induction false} BinsUpTo(debates: seq<DebateMetrics>, bins: seq<int>)
    requires forall i :: 0 <= i < |bins| ==> bins[i] == Count(debates, InBin(i))
    ensures SumBins(bins) == Count(debates, InBins(|bins|))
  {
    if bins == [] {
      CountZero(debates, InBins(0));
    } else {
      BinsUpTo(debates, bins[..|bins| - 1]);
      BinsPartition(debates, |bins| - 1);
    }
  }

  // ----- the collector -----

  class Collector {
    var debates: seq<DebateMetrics>
    var providerLatencies: map<string, seq<real>>

    /** The latencies kept per named provider are those of the recorded debates. */
    ghost predicate Valid()
      reads this
    {
      && "" !in providerLatencies
      && (forall p :: p in providerLatencies ==> providerLatencies[p] == Latencies(debates, p))
      && (forall p :: p != "" && p !in providerLatencies ==> Latencies(debates, p) == [])
    }

    constructor ()
      ensures Valid() && debates == []
    {
      debates, providerLatencies := [], map[];
    }

    method RecordDebate(d: DebateMetrics)
      requires Valid()
      modifies this
      ensures Valid() && debates == old(debates) + [d]
    {
      debates := debates + [d];
      assert debates[..|debates| - 1] == old(debates);
      if d.provider != "" {
        var sofar := if d.provider in providerLatencies then providerLatencies[d.provider] else [];
        providerLatencies := providerLatencies[d.provider := sofar + [d.duration]];
      }
    }

    method GetProviderStats(provider: string) returns (stats: ProviderMetrics)
      ensures stats == StatsOf(debates, provider)
    {
      var total, succeeded, failed, tokens, longest := 0, 0, 0, 0, 0.0;
      for i := 0 to |debates|
        invariant total == Amount(debates[..i], provider, One)
        invariant succeeded == Amount(debates[..i], provider, Success)
        invariant failed == Amount(debates[..i], provider, Failure)
        invariant tokens == Amount(debates[..i], provider, Tokens)
        invariant longest == Longest(debates[..i], provider)
      {
        assert debates[..i + 1][..i] == debates[..i];
        var d := debates[i];
        if d.provider == provider {
          total := total + 1;
          if d.success {
            succeeded := succeeded + 1;
          } else {
            failed := failed + 1;
          }
          tokens := tokens + d.tokens;
          longest := if longest < d.duration then d.duration else longest;
        }
      }
      assert debates[..|debates|] == debates;
      var average := 0.0;
      if total > 0 {
        var sum := TotalLatency(provider);
        average := sum / total as real;
      }
      stats := ProviderMetrics(provider, total, succeeded, failed, tokens, average, longest);
    }

    method TotalLatency(provider: string) returns (sum: real)
      ensures sum == Duration(debates, provider)
    {
      sum := 0.0;
      for i := 0 to |debates|
        invariant sum == Duration(debates[..i], provider)
      {
        assert debates[..i + 1][..i] == debates[..i];
        if debates[i].provider == provider {
          sum := sum + debates[i].duration;
        }
      }
      assert debates[..|debates|] == debates;
    }

    /** The statistics of every provider that occurs, in a map. */
    method CollectStats() returns (stats: map<string, ProviderMetrics>)
      ensures forall p :: p in stats <==> Occurs(debates, p)
      ensures forall p :: p in stats ==> stats[p] == StatsOf(debates, p)
    {
      stats := map[];
      for i := 0 to |debates|
        invariant forall k :: 0 <= k < i ==> debates[k].provider in stats
        invariant forall p :: p in stats ==> Occurs(debates, p)
        invariant forall p :: p in stats ==> stats[p] == StatsOf(debates, p)
      {
        var p := debates[i].provider;
        if p !in stats {
          var s := GetProviderStats(p);
          stats := stats[p := s];
        }
      }
    }

    /** The map read out in the order of its keys. */
    method GetAllStats() returns (all: seq<ProviderMetrics>)
      ensures AllStats(debates, all)
    {
      var stats := CollectStats();
      all := InKeyOrder(stats);
      forall i | 0 <= i < |debates| ensures Lists(all, debates[i].provider) {
        assert debates[i].provider in stats;
      }
    }

    static method InKeyOrder(stats: map<string, ProviderMetrics>) returns (all: seq<ProviderMetrics>)
      requires forall p :: p in stats ==> stats[p].provider == p
      ensures Ascending(all)
      ensures forall i :: 0 <= i < |all| ==> all[i].provider in stats && all[i] == stats[all[i].provider]
      ensures forall p :: p in stats ==> Lists(all, p)
    {
      all := [];
      var rest := stats.Keys;
      while rest != {}
        invariant rest <= stats.Keys && Ascending(all)
        invariant forall i :: 0 <= i < |all| ==> all[i].provider in stats && all[i] == stats[all[i].provider]
        invariant forall p :: p in stats && p !in rest ==> Lists(all, p)
        invariant forall i, p :: 0 <= i < |all| && p in rest ==> Before(all[i].provider, p)
        decreases |rest|
      {
        FirstExists(rest);
        var p :| p in rest && IsFirst(rest, p);
        rest := rest - {p};
        ListsMore(all, stats[p]);
        all := all + [stats[p]];
      }
    }

    /** The percentiles of the recorded debates; for a named provider they are those of the latencies kept for it. */
    method GetPercentiles(provider: string) returns (stats: PercentileStats)
      requires Valid()
      ensures stats == Percentiles(Latencies(debates, provider))
      ensures provider in providerLatencies ==> stats == Percentiles(providerLatencies[provider])
    {
      var latencies: seq<real> := [];
      for i := 0 to |debates|
        invariant latencies == Latencies(debates[..i], provider)
      {
        assert debates[..i + 1][..i] == debates[..i];
        if debates[i].provider == provider {
          latencies := latencies + [debates[i].duration];
        }
      }
      assert debates[..|debates|] == debates;
      if latencies == [] {
        return PercentileStats(0.0, 0.0, 0.0);
      }
      var size, sorted := |latencies|, Sort(latencies);
      assert size / 2 == Rank(50, size) && 95 * size / 100 == Rank(95, size) && 99 * size / 100 == Rank(99, size);
      stats := PercentileStats(sorted[size / 2], sorted[95 * size / 100], sorted[99 * size / 100]);
    }

    /** A count of -500 or less makes the program index before the first bin; nothing is promised then. */
    method GetTokenDistribution() returns (histogram: array<int>, outOfRange: bool)
      ensures fresh(histogram) && histogram.Length == 100
      ensures outOfRange <==> exists i :: 0 <= i < |debates| && debates[i].tokens <= -500
      ensures !outOfRange ==> forall i :: 0 <= i < 100 ==> histogram[i] == Count(debates, InBin(i))
    {
      histogram := new int[BINS](_ => 0);
      for k := 0 to |debates|
        invariant forall i :: 0 <= i < BINS ==> histogram[i] == Count(debates[..k], InBin(i))
        invariant forall i :: 0 <= i < k ==> debates[i].tokens > -500
      {
        BinStep(debates, k);
        var bin := Bin(debates[k].tokens);
        if bin < 0 {
          return histogram, true;
        }
        if bin < BINS {
          histogram[bin] := histogram[bin] + 1;
        }
      }
      assert debates[..|debates|] == debates;
      outOfRange := false;
    }

    method ResetAll()
      modifies this
      ensures Valid() && debates == []
    {
      debates, providerLatencies := [], map[];
    }
  }
}
