/**
 * The dashboard's main logic: collect the tickers to fetch from the
 * catalogue, fetch each once, regroup the results per category under their
 * adjusted symbols, and average the valid changes of each category.
 */
module Dashboard {
  import opened Wrappers
  import opened Tickers
  import opened StockData
  import opened Catalogue
  import opened Seqs

  /** The fetch result of one adjusted symbol (a pure function: the cache's view). */
  type Fetcher = string -> TickerData

  /** One element of `unique_tickers_to_fetch`. */
  datatype FetchKey = FetchKey(adjusted: string, raw: string, companyName: string, industry: string)

  /** One value of `processed_tickers_info`: the fetch result with the entry's metadata. */
  datatype Processed = Processed(data: TickerData, raw: string, companyName: string, industry: string)

  /** One element of `failed_tickers`: the symbol and its error. */
  datatype Failure = Failure(ticker: string, error: FetchError)

  /** One value of `results`: an insertion-ordered dictionary keyed by adjusted symbol. */
  datatype CategoryResults = CategoryResults(name: string, keys: seq<string>, data: map<string, Processed>)

  /** One row of `summary_data_list`. */
  datatype Summary = Summary(category: string, avg5d: Option<real>, avg1mo: Option<real>)

  ghost predicate ResultsValid(r: CategoryResults)
  {
    Distinct(r.keys) && forall a :: a in r.data <==> a in r.keys
  }

  function KeyOf(e: Entry): FetchKey
  {
    FetchKey(Adjust(e.ticker), e.ticker, e.companyName, e.industry)
  }

  /** `t` is added to `unique_tickers_to_fetch` for some entry of the catalogue. */
  ghost predicate FromCatalogue(cats: Categories, t: FetchKey)
  {
    t.adjusted != "" &&
    exists c, i :: c in cats.groups && 0 <= i < |cats.groups[c]| && t == KeyOf(cats.groups[c][i])
  }

  /** Some entry of the list adjusts to `a`. */
  ghost predicate AdjustsTo(entries: seq<Entry>, a: string)
  {
    exists j :: 0 <= j < |entries| && Adjust(entries[j].ticker) == a
  }

  /** One more entry adds its adjusted symbol. */
  lemma AdjustsToSnoc(entries: seq<Entry>, j: nat)
    requires j < |entries|
    ensures forall a :: AdjustsTo(entries[..j + 1], a) <==> AdjustsTo(entries[..j], a) || Adjust(entries[j].ticker) == a
  {
    PrefixSnoc(entries, j);
    var p := entries[..j + 1];
    assert forall k :: 0 <= k < j ==> p[k] == entries[..j][k];
    assert p[j] == entries[j];
  }

  /** The tuples the entries of one category contribute. */
  function EntryKeys(entries: seq<Entry>): (ks: set<FetchKey>)
    ensures forall t :: t in ks ==> t.adjusted != "" && exists i :: 0 <= i < |entries| && t == KeyOf(entries[i])
    ensures forall i :: 0 <= i < |entries| && Adjust(entries[i].ticker) != "" ==> KeyOf(entries[i]) in ks
  {
    set i | 0 <= i < |entries| && Adjust(entries[i].ticker) != "" :: KeyOf(entries[i])
  }

  /** Handling one more entry adds its tuple, unless its adjusted symbol is empty. */
  lemma EntryKeysSnoc(entries: seq<Entry>, e: Entry)
    ensures EntryKeys(entries + [e]) == EntryKeys(entries) + (if Adjust(e.ticker) != "" then {KeyOf(e)} else {})
  {
    var s := entries + [e];
    assert forall i :: 0 <= i < |entries| ==> s[i] == entries[i];
    CutSnoc(entries, e);
  }

  /** The tuples the listed categories contribute. */
  function CategoryKeys(cats: Categories, names: seq<string>): (u: set<FetchKey>)
    requires forall c :: c in names ==> c in cats.groups
    ensures forall t :: t in u <==> exists c :: c in names && t in EntryKeys(cats.groups[c])
  {
    if names == [] then {}
    else
      var rest := CategoryKeys(cats, names[..|names| - 1]);
      assert forall c :: c in names <==> c in names[..|names| - 1] || c == names[|names| - 1];
      rest + EntryKeys(cats.groups[names[|names| - 1]])
  }

  lemma CategoryKeysOfCatalogue(cats: Categories, t: FetchKey)
    requires Valid(cats)
    ensures t in CategoryKeys(cats, cats.order) <==> FromCatalogue(cats, t)
  {
    if FromCatalogue(cats, t) {
      var c, i :| c in cats.groups && 0 <= i < |cats.groups[c]| && t == KeyOf(cats.groups[c][i]);
      assert t in EntryKeys(cats.groups[c]);
    }
  }

  /** The tuples of one more category. */
  lemma CategoryKeysStep(cats: Categories, i: nat)
    requires Valid(cats) && i < |cats.order|
    ensures CategoryKeys(cats, cats.order[..i + 1]) ==
              CategoryKeys(cats, cats.order[..i]) + EntryKeys(cats.groups[cats.order[i]])
  {
    PrefixOfPrefix(cats.order, i);
  }

  /** The inner half of the first loop: add the tuples of one category's entries. */
  method CollectEntryKeys(entries: seq<Entry>, u0: set<FetchKey>) returns (u: set<FetchKey>)
    ensures u == u0 + EntryKeys(entries)
  {
    u := u0;
    for j := 0 to |entries|
      invariant u == u0 + EntryKeys(entries[..j])
    {
      PrefixSnoc(entries, j);
      EntryKeysSnoc(entries[..j], entries[j]);
      var adjusted := Adjust(entries[j].ticker);
      if adjusted != "" {
        u := u + {FetchKey(adjusted, entries[j].ticker, entries[j].companyName, entries[j].industry)};
      }
    }
    PrefixAll(entries);
  }

  /** The first loop: the set of (adjusted, raw, name, industry) tuples to fetch. */
  method CollectFetchKeys(cats: Categories) returns (u: set<FetchKey>)
    requires Valid(cats)
    ensures forall t :: t in u <==> FromCatalogue(cats, t)
    ensures u == CategoryKeys(cats, cats.order)
  {
    u := {};
    for i := 0 to |cats.order|
      invariant u == CategoryKeys(cats, cats.order[..i])
    {
      CategoryKeysStep(cats, i);
      u := CollectEntryKeys(cats.groups[cats.order[i]], u);
    }
    PrefixAll(cats.order);
    forall t ensures t in u <==> FromCatalogue(cats, t) {
      CategoryKeysOfCatalogue(cats, t);
    }
  }

  /** `processed_tickers_info` after the tuples of `visit` were handled in that order. */
  function Record(visit: seq<FetchKey>, fetch: Fetcher): (m: map<string, Processed>)
    ensures forall a :: a in m <==> exists t :: t in visit && t.adjusted == a
    ensures forall a :: a in m ==> m[a].data == fetch(a)
    ensures forall a :: a in m ==> exists t :: t in visit && t.adjusted == a
                                       && m[a] == Processed(fetch(a), t.raw, t.companyName, t.industry)
  {
    if visit == [] then map[]
    else
      var t := visit[|visit| - 1];
      var m := Record(visit[..|visit| - 1], fetch);
      assert forall x :: x in visit <==> x in visit[..|visit| - 1] || x == t;
      m[t.adjusted := Processed(fetch(t.adjusted), t.raw, t.companyName, t.industry)]
  }

  /** `failed_tickers` after the tuples of `visit` were handled in that order. */
  function Failures(visit: seq<FetchKey>, fetch: Fetcher): (f: seq<Failure>)
    ensures |f| <= |visit|
    ensures forall x :: x in f <==> exists t :: t in visit && fetch(t.adjusted).error.Some?
                                                && x == Failure(t.adjusted, fetch(t.adjusted).error.value)
  {
    if visit == [] then []
    else
      var t := visit[|visit| - 1];
      var rest := Failures(visit[..|visit| - 1], fetch);
      assert forall x :: x in visit <==> x in visit[..|visit| - 1] || x == t;
      if fetch(t.adjusted).error.Some? then rest + [Failure(t.adjusted, fetch(t.adjusted).error.value)]
      else rest
  }

  /** Handling one more tuple records it under its adjusted symbol. */
  lemma RecordSnoc(visit: seq<FetchKey>, t: FetchKey, fetch: Fetcher)
    ensures Record(visit + [t], fetch) ==
              Record(visit, fetch)[t.adjusted := Processed(fetch(t.adjusted), t.raw, t.companyName, t.industry)]
  {
    CutSnoc(visit, t);
  }

  /** Handling one more tuple adds its failure, if it failed. */
  lemma FailuresSnoc(visit: seq<FetchKey>, t: FetchKey, fetch: Fetcher)
    ensures Failures(visit + [t], fetch) ==
              Failures(visit, fetch) + if fetch(t.adjusted).error.Some? then [Failure(t.adjusted, fetch(t.adjusted).error.value)] else []
  {
    CutSnoc(visit, t);
  }

  /** The tuples of `visit` whose fetch fails. */
  function FailedTuples(visit: seq<FetchKey>, fetch: Fetcher): set<FetchKey>
  {
    set t | t in visit && fetch(t.adjusted).error.Some?
  }

  /** Over distinct tuples, one failure is recorded per failed tuple. */
  lemma {:induction false} FailuresCount(visit: seq<FetchKey>, fetch: Fetcher)
    requires Distinct(visit)
    ensures |Failures(visit, fetch)| == |FailedTuples(visit, fetch)|
  {
    if visit != [] {
      DistinctInit(visit);
      FailuresCount(visit[..|visit| - 1], fetch);
      FailedTuplesStep(visit, fetch);
    }
  }

  /** The last tuple adds itself to the failed tuples of the others exactly when it fails. */
  lemma FailedTuplesStep(visit: seq<FetchKey>, fetch: Fetcher)
    requires visit != []
    ensures var t := visit[|visit| - 1];
            FailedTuples(visit, fetch) ==
              FailedTuples(visit[..|visit| - 1], fetch) + if fetch(t.adjusted).error.Some? then {t} else {}
  {
    assert forall x :: x in visit <==> x in visit[..|visit| - 1] || x == visit[|visit| - 1];
  }

  /** Visiting every tuple of a set once records one failure per failed tuple of the set. */
  lemma FailuresOfEnumeration(visit: seq<FetchKey>, u: set<FetchKey>, fetch: Fetcher)
    requires Distinct(visit) && forall t :: t in visit <==> t in u
    ensures |Failures(visit, fetch)| == |set t | t in u && fetch(t.adjusted).error.Some?|
  {
    FailuresCount(visit, fetch);
    assert FailedTuples(visit, fetch) == set t | t in u && fetch(t.adjusted).error.Some?;
  }

  /**
   * The second loop: fetch every tuple of the set, in an order the set
   * chooses (returned as `visit`). Every adjusted symbol of the set is
   * fetched and recorded with that symbol's own data; only the metadata of
   * a symbol reached by several tuples depends on the order.
   */
  method FetchAll(u: set<FetchKey>, fetch: Fetcher)
    returns (processed: map<string, Processed>, failed: seq<Failure>, ghost visit: seq<FetchKey>)
    ensures Distinct(visit) && forall t :: t in visit <==> t in u
    ensures processed == Record(visit, fetch) && failed == Failures(visit, fetch)
    ensures forall a :: a in processed <==> exists t :: t in u && t.adjusted == a
    ensures forall a :: a in processed ==> processed[a].data == fetch(a)
    ensures forall x :: x in failed <==> exists t :: t in u && fetch(t.adjusted).error.Some?
                                                   && x == Failure(t.adjusted, fetch(t.adjusted).error.value)
    ensures |failed| == |set t | t in u && fetch(t.adjusted).error.Some?|
  {
    var remaining := u;
    processed, failed, visit := map[], [], [];
    while remaining != {}
      invariant remaining <= u && Distinct(visit)
      invariant forall t :: t in visit <==> t in u && t !in remaining
      invariant processed == Record(visit, fetch) && failed == Failures(visit, fetch)
      decreases |remaining|
    {
      var t :| t in remaining;
      var stockData := fetch(t.adjusted);
      processed := processed[t.adjusted := Processed(stockData, t.raw, t.companyName, t.industry)];
      if stockData.error.Some? {
        failed := failed + [Failure(t.adjusted, stockData.error.value)];
      }
      remaining := remaining - {t};
      RecordSnoc(visit, t, fetch);
      FailuresSnoc(visit, t, fetch);
      DistinctSnoc(visit, t);
      visit := visit + [t];
    }
    FailuresOfEnumeration(visit, u, fetch);
  }

  /**
   * The inner half of the third loop: the adjusted symbols of one category's
   * entries that were fetched, first occurrence first, each with its record.
   */
  method GroupEntries(name: string, entries: seq<Entry>, processed: map<string, Processed>)
    returns (r: CategoryResults)
    ensures r.name == name && ResultsValid(r)
    ensures forall a :: a in r.data <==> a in processed && AdjustsTo(entries, a)
    ensures forall a :: a in r.data ==> r.data[a] == processed[a]
  {
    var keys: seq<string> := [];
    var data: map<string, Processed> := map[];
    for j := 0 to |entries|
      invariant ResultsValid(CategoryResults(name, keys, data))
      invariant forall a :: a in data <==> a in processed && AdjustsTo(entries[..j], a)
      invariant forall a :: a in data ==> data[a] == processed[a]
    {
      AdjustsToSnoc(entries, j);
      var adjusted := Adjust(entries[j].ticker);
      if adjusted in processed {
        if adjusted !in data {
          DistinctSnoc(keys, adjusted);
          keys := keys + [adjusted];
        }
        data := data[adjusted := processed[adjusted]];
      }
    }
    PrefixAll(entries);
    r := CategoryResults(name, keys, data);
  }

  /** The third loop: `results[category][adjusted] = processed_tickers_info[adjusted]`. */
  method GroupByCategory(cats: Categories, processed: map<string, Processed>) returns (results: seq<CategoryResults>)
    requires Valid(cats)
    ensures |results| == |cats.order|
    ensures forall i :: 0 <= i < |results| ==>
              && results[i].name == cats.order[i]
              && ResultsValid(results[i])
              && (forall a :: a in results[i].data <==> a in processed && AdjustsTo(cats.groups[cats.order[i]], a))
              && (forall a :: a in results[i].data ==> results[i].data[a] == processed[a])
  {
    results := [];
    for i := 0 to |cats.order|
      invariant |results| == i
      invariant forall n :: 0 <= n < i ==>
                  && results[n].name == cats.order[n]
                  && ResultsValid(results[n])
                  && (forall a :: a in results[n].data <==> a in processed && AdjustsTo(cats.groups[cats.order[n]], a))
                  && (forall a :: a in results[n].data ==> results[n].data[a] == processed[a])
    {
      var r := GroupEntries(cats.order[i], cats.groups[cats.order[i]], processed);
      results := results + [r];
    }
  }

  /** `[x for x in changes if x is not None and x != float('inf')]` */
  function ValidValues(cs: seq<Change>): (xs: seq<real>)
    ensures |xs| <= |cs|
    ensures forall x :: x in xs <==> exists i :: 0 <= i < |cs| && cs[i] == Pct(x)
    ensures xs == [] <==> forall i :: 0 <= i < |cs| ==> !cs[i].Pct?
  {
    if cs == [] then []
    else
      var rest := ValidValues(cs[1..]);
      assert forall i :: 0 < i < |cs| ==> cs[i] == cs[1..][i - 1];
      if cs[0].Pct? then [cs[0].pct] + rest else rest
  }

  function Sum(xs: seq<real>): real
  {
    if xs == [] then 0.0 else xs[0] + Sum(xs[1..])
  }

  function Min(xs: seq<real>): (m: real)
    requires xs != []
    ensures m in xs && forall i :: 0 <= i < |xs| ==> m <= xs[i]
  {
    if |xs| == 1 then xs[0]
    else var m := Min(xs[1..]); if xs[0] <= m then xs[0] else m
  }

  function Max(xs: seq<real>): (m: real)
    requires xs != []
    ensures m in xs && forall i :: 0 <= i < |xs| ==> xs[i] <= m
  {
    if |xs| == 1 then xs[0]
    else var m := Max(xs[1..]); if xs[0] >= m then xs[0] else m
  }

  /** A sum of values in [lo, hi] lies between `lo` and `hi` times the count. */
  lemma {:induction false} SumBounds(xs: seq<real>, lo: real, hi: real)
    requires forall i :: 0 <= i < |xs| ==> lo <= xs[i] <= hi
    ensures lo * (|xs| as real) <= Sum(xs) <= hi * (|xs| as real)
  {
    if xs != [] {
      SumBounds(xs[1..], lo, hi);
    }
  }

  lemma DivisionExact(total: real, n: real)
    requires n > 0.0
    ensures (total / n) * n == total
  {
  }

  lemma ScaleCancel(a: real, b: real, n: real, s: real, t: real)
    requires n > 0.0 && a * n == s && b * n == t && s <= t
    ensures a <= b
  {
  }

  /** Each number is kept as often as it occurs as a numeric change. */
  lemma {:induction false} ValidValuesCounts(cs: seq<Change>, x: real)
    ensures multiset(ValidValues(cs))[x] == multiset(cs)[Pct(x)]
  {
    if cs != [] {
      ValidValuesCounts(cs[1..], x);
      assert cs == [cs[0]] + cs[1..];
    }
  }

  /** `m` times the number of values is their sum: `m` is their mean. */
  predicate MeanOf(m: real, xs: seq<real>)
  {
    m * (|xs| as real) == Sum(xs)
  }

  /** `statistics.mean(values) if values else None`: the value whose multiple by the count is the sum. */
  function Mean(xs: seq<real>): (r: Option<real>)
    ensures r.None? <==> xs == []
    ensures xs != [] ==> MeanOf(r.value, xs)
  {
    if xs == [] then None
    else
      var n, total := |xs| as real, Sum(xs);
      DivisionExact(total, n);
      Some(total / n)
  }

  /** The mean of values in [lo, hi] lies in [lo, hi]. */
  lemma MeanWithin(xs: seq<real>, lo: real, hi: real)
    requires xs != [] && forall i :: 0 <= i < |xs| ==> lo <= xs[i] <= hi
    ensures lo <= Mean(xs).value <= hi
  {
    var n, m, total := |xs| as real, Mean(xs).value, Sum(xs);
    assert MeanOf(m, xs);
    SumBounds(xs, lo, hi);
    assert n > 0.0 && m * n == total;
    assert lo * n <= total <= hi * n;
    ScaleCancel(lo, m, n, lo * n, total);
    ScaleCancel(m, hi, n, total, hi * n);
  }

  /** The mean of a non-empty list lies between its least and greatest value. */
  lemma MeanBetween(xs: seq<real>)
    requires xs != []
    ensures Min(xs) <= Mean(xs).value <= Max(xs)
  {
    MeanWithin(xs, Min(xs), Max(xs));
  }

  /** A category's average change: the mean of its numeric changes, `None` when there are none. */
  function CategoryAverage(cs: seq<Change>): (r: Option<real>)
    ensures r.None? <==> forall i :: 0 <= i < |cs| ==> !cs[i].Pct?
    ensures r.Some? ==> exists i :: 0 <= i < |cs| && cs[i].Pct? && cs[i].pct <= r.value
    ensures r.Some? ==> exists i :: 0 <= i < |cs| && cs[i].Pct? && r.value <= cs[i].pct
    ensures r.Some? ==> MeanOf(r.value, ValidValues(cs))
  {
    var xs := ValidValues(cs);
    var r := Mean(xs);
    if xs == [] then r
    else
      MeanBetween(xs);
      assert (exists i :: 0 <= i < |cs| && cs[i] == Pct(Min(xs))) && (exists i :: 0 <= i < |cs| && cs[i] == Pct(Max(xs)));
      r
  }

  /** An infinite or absent change does not enter the average. */
  lemma AverageExample()
    ensures CategoryAverage([Pct(5.0), Infinite, NoChange]) == Some(5.0)
    ensures CategoryAverage([Infinite, NoChange]) == None
  {
    assert ValidValues([Pct(5.0), Infinite, NoChange]) == [5.0];
  }

  /** A repeated change is counted each time it occurs. */
  lemma RepeatedChangeExample()
    ensures CategoryAverage([Pct(5.0), Infinite, Pct(5.0), Pct(20.0)]) == Some(10.0)
  {
    var cs := [Pct(5.0), Infinite, Pct(5.0), Pct(20.0)];
    assert cs[1..][1..] == [Pct(5.0), Pct(20.0)];
    assert ValidValues([Pct(5.0), Pct(20.0)]) == [5.0, 20.0];
    assert ValidValues(cs) == [5.0, 5.0, 20.0];
    assert Sum([5.0, 5.0, 20.0]) == 30.0;
  }

  /** The changes of one category, in its key order. */
  function FiveDayChanges(r: CategoryResults): (cs: seq<Change>)
    ensures |cs| == |r.keys|
    ensures forall k :: 0 <= k < |cs| && r.keys[k] in r.data ==> cs[k] == r.data[r.keys[k]].data.change5d
    ensures forall k :: 0 <= k < |cs| && r.keys[k] !in r.data ==> cs[k] == NoChange
  {
    seq(|r.keys|, k requires 0 <= k < |r.keys| => if r.keys[k] in r.data then r.data[r.keys[k]].data.change5d else NoChange)
  }

  function OneMonthChanges(r: CategoryResults): (cs: seq<Change>)
    ensures |cs| == |r.keys|
    ensures forall k :: 0 <= k < |cs| && r.keys[k] in r.data ==> cs[k] == r.data[r.keys[k]].data.change1mo
    ensures forall k :: 0 <= k < |cs| && r.keys[k] !in r.data ==> cs[k] == NoChange
  {
    seq(|r.keys|, k requires 0 <= k < |r.keys| => if r.keys[k] in r.data then r.data[r.keys[k]].data.change1mo else NoChange)
  }

  /** The summary row of one category: its name and its two average changes. */
  function SummaryOf(r: CategoryResults): (s: Summary)
    ensures s.category == r.name
    ensures s.avg5d.None? <==> forall k :: 0 <= k < |r.keys| && r.keys[k] in r.data ==> !r.data[r.keys[k]].data.change5d.Pct?
    ensures s.avg1mo.None? <==> forall k :: 0 <= k < |r.keys| && r.keys[k] in r.data ==> !r.data[r.keys[k]].data.change1mo.Pct?
    ensures s.avg5d.Some? ==> MeanOf(s.avg5d.value, ValidValues(FiveDayChanges(r)))
    ensures s.avg1mo.Some? ==> MeanOf(s.avg1mo.value, ValidValues(OneMonthChanges(r)))
  {
    NoAverageWithoutNumbers(r);
    Summary(r.name, CategoryAverage(FiveDayChanges(r)), CategoryAverage(OneMonthChanges(r)))
  }

  /** A category has no average exactly when none of its fetched tickers has a numeric change. */
  lemma NoAverageWithoutNumbers(r: CategoryResults)
    ensures CategoryAverage(FiveDayChanges(r)).None? <==>
              forall k :: 0 <= k < |r.keys| && r.keys[k] in r.data ==> !r.data[r.keys[k]].data.change5d.Pct?
    ensures CategoryAverage(OneMonthChanges(r)).None? <==>
              forall k :: 0 <= k < |r.keys| && r.keys[k] in r.data ==> !r.data[r.keys[k]].data.change1mo.Pct?
  {
    var c5, c1 := FiveDayChanges(r), OneMonthChanges(r);
    assert forall k :: 0 <= k < |c5| ==> (c5[k].Pct? <==> r.keys[k] in r.data && r.data[r.keys[k]].data.change5d.Pct?);
    assert forall k :: 0 <= k < |c1| ==> (c1[k].Pct? <==> r.keys[k] in r.data && r.data[r.keys[k]].data.change1mo.Pct?);
  }

  /** Appending the next category's summary extends the summaries of the categories before it. */
  lemma SummariesSnoc(summaries: seq<Summary>, results: seq<CategoryResults>, s: Summary)
    requires |summaries| < |results| && s == SummaryOf(results[|summaries|])
    requires forall n :: 0 <= n < |summaries| ==> summaries[n] == SummaryOf(results[n])
    ensures forall n :: 0 <= n <= |summaries| ==> (summaries + [s])[n] == SummaryOf(results[n])
  {
    CutSnoc(summaries, s);
  }

  /** The fourth loop: one summary per category, in category order. */
  method Summarize(results: seq<CategoryResults>) returns (summaries: seq<Summary>)
    ensures |summaries| == |results|
    ensures forall i :: 0 <= i < |results| ==> summaries[i] == SummaryOf(results[i])
  {
    summaries := [];
    for i := 0 to |results|
      invariant |summaries| == i
      invariant forall n :: 0 <= n < i ==> summaries[n] == SummaryOf(results[n])
    {
      var avg5d := CategoryAverage(FiveDayChanges(results[i]));
      var avg1mo := CategoryAverage(OneMonthChanges(results[i]));
      SummariesSnoc(summaries, results, Summary(results[i].name, avg5d, avg1mo));
      summaries := summaries + [Summary(results[i].name, avg5d, avg1mo)];
    }
  }

  /**
   * A category's grouped symbols are exactly the non-empty adjusted symbols
   * of its entries: every such symbol was collected, hence fetched.
   */
  lemma GroupedSymbolsOfCategory(cats: Categories, u: set<FetchKey>, processed: map<string, Processed>,
                                 c: string, r: CategoryResults, fetch: Fetcher)
    requires Valid(cats) && c in cats.groups
    requires forall t :: t in u <==> FromCatalogue(cats, t)
    requires forall a :: a in processed <==> exists t :: t in u && t.adjusted == a
    requires forall a :: a in processed ==> processed[a].data == fetch(a)
    requires forall a :: a in r.data <==> a in processed && AdjustsTo(cats.groups[c], a)
    requires forall a :: a in r.data ==> r.data[a] == processed[a]
    ensures forall a :: a in r.data <==> a != "" && AdjustsTo(cats.groups[c], a)
    ensures forall a :: a in r.data ==> r.data[a].data == fetch(a)
  {
    forall a | a != "" && AdjustsTo(cats.groups[c], a)
      ensures a in processed
    {
      var entries := cats.groups[c];
      var j :| 0 <= j < |entries| && Adjust(entries[j].ticker) == a;
      var t := KeyOf(cats.groups[c][j]);
      assert t.adjusted == a;
      assert FromCatalogue(cats, t);
    }
  }

  /**
   * The main logic end to end: collect, fetch, group and summarise. Each
   * category lists exactly the non-empty adjusted symbols of its entries,
   * each with that symbol's own fetch result, and its summary averages them.
   */
  method RunDashboard(cats: Categories, fetch: Fetcher)
    returns (results: seq<CategoryResults>, summaries: seq<Summary>, failed: seq<Failure>)
    requires Valid(cats)
    ensures |results| == |cats.order| && |summaries| == |cats.order|
    ensures forall i :: 0 <= i < |results| ==>
              && results[i].name == cats.order[i]
              && ResultsValid(results[i])
              && (forall a :: a in results[i].data <==> a != "" && AdjustsTo(cats.groups[cats.order[i]], a))
              && (forall a :: a in results[i].data ==> results[i].data[a].data == fetch(a))
    ensures forall i :: 0 <= i < |summaries| ==> summaries[i] == SummaryOf(results[i])
    ensures forall x :: x in failed <==> exists t :: FromCatalogue(cats, t) && fetch(t.adjusted).error.Some?
                                                   && x == Failure(t.adjusted, fetch(t.adjusted).error.value)
    ensures |failed| == |set t | t in CategoryKeys(cats, cats.order) && fetch(t.adjusted).error.Some?|
  {
    var u := CollectFetchKeys(cats);
    var processed: map<string, Processed>;
    ghost var visit: seq<FetchKey>;
    processed, failed, visit := FetchAll(u, fetch);
    results := GroupByCategory(cats, processed);
    summaries := Summarize(results);
    forall i | 0 <= i < |results|
      ensures forall a :: a in results[i].data <==> a != "" && AdjustsTo(cats.groups[cats.order[i]], a)
      ensures forall a :: a in results[i].data ==> results[i].data[a].data == fetch(a)
    {
      GroupedSymbolsOfCategory(cats, u, processed, cats.order[i], results[i], fetch);
    }
  }

  /**
   * Two tickers in one category: A closes at 110 today and at 100 five
   * trading days ago but has no price a month ago; B has no price at all.
   * The category averages 10% over five days and has no one-month average
   * (B's record is not an error either: see `NoTodayPriceIsNotAnError`).
   */
  lemma TwoTickerExample()
    ensures CategoryAverage([FiveDayChange(Some(110.0), Some(100.0)), FiveDayChange(None, None)]) == Some(10.0)
    ensures CategoryAverage([OneMonthChange(Some(110.0), None), OneMonthChange(None, None)]) == None
  {
    assert FiveDayChange(Some(110.0), Some(100.0)) == Pct(10.0);
    assert ValidValues([Pct(10.0), NoChange]) == [10.0];
  }
}
