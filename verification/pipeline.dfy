/** The whole run, from the loaded ticker column to the sized table that the
    spreadsheet is written from: batch, request, tabulate, zero-fill, score,
    select, size. Every stage consumes the complete output of the one
    before. */
module Pipeline {
  import opened Types
  import opened Batching
  import opened Fetch
  import opened Scoring
  import opened Selection
  import opened Sizing

  /** The table of scored rows, before selection. */
  function Universe(quotes: seq<Quote>): (scored: seq<Scored>)
    ensures |scored| == |quotes|
    ensures forall k :: 0 <= k < |quotes| ==> scored[k].stock.ticker == quotes[k].ticker
    ensures forall k :: 0 <= k < |quotes| ==> 0.0 <= scored[k].hqm <= 100.0
    ensures forall k :: 0 <= k < |quotes| ==> scored[k].stock == FillMissing(quotes[k])
    ensures forall k :: 0 <= k < |quotes| ==> scored[k] == ScoreRow(FillTable(quotes), k)
  {
    var stocks := FillTable(quotes);
    var scored := Score(stocks);
    assert forall k :: 0 <= k < |quotes| ==> scored[k] == ScoreRow(stocks, k);
    scored
  }

  /** The whole script, from the ticker column to the sized table, with the
      budget as a parameter and `fetch` standing for one batch request. */
  function Run(tickers: seq<string>, fetch: string -> Response, budget: real): (r: Result<seq<Trade>>)
    ensures r.Ok? ==> AllListed(SymbolStrings(tickers), fetch)
    ensures r.Ok? ==> 0 < |r.value| <= TopCount
    ensures r.Ok? ==> forall i :: 0 <= i < |r.value| ==> r.value[i].row.stock.price != 0.0
  {
    match Tabulate(SymbolStrings(tickers), fetch)
    case Err(e) => Err(e)
    case Ok(quotes) => SizePositions(budget, SelectTop(Universe(quotes)))
  }

  /** An empty ticker list makes no request and stops at sizing with the
      empty-selection error, never dividing by zero. */
  lemma EmptyUniverse(fetch: string -> Response, budget: real)
    ensures Run([], fetch, budget) == Err(EmptySelection)
  {
    var none: seq<string> := [];
    assert |SymbolStrings(none)| == 0;
  }

  /** No selected row has price 0. */
  predicate PricesNonZero(rows: seq<Scored>) {
    forall i :: 0 <= i < |rows| ==> rows[i].stock.price != 0.0
  }

  /** The run finishes exactly when the ticker list is non-empty, every
      symbol has an entry in its batch's response, and no selected row has
      price 0; otherwise it stops with one of the three errors. */
  lemma RunSucceeds(tickers: seq<string>, fetch: string -> Response, budget: real)
    ensures Run(tickers, fetch, budget).Ok? <==>
              && |tickers| > 0
              && AllListed(SymbolStrings(tickers), fetch)
              && PricesNonZero(SelectTop(Universe(Tabulate(SymbolStrings(tickers), fetch).value)))
  {
    var strings := SymbolStrings(tickers);
    var t := Tabulate(strings, fetch);
    if |tickers| == 0 {
      EmptyUniverse(fetch, budget);
      assert tickers == [];
    } else if t.Ok? {
      var quotes := t.value;
      assert |Symbols(strings)| >= |strings| >= 1;
      assert |Tickers(quotes)| == |quotes|;
      assert |SelectTop(Universe(quotes))| > 0;
    }
  }

  /** A symbol missing from its batch's response stops the run. */
  lemma MissingSymbolStops(tickers: seq<string>, fetch: string -> Response, budget: real)
    requires !AllListed(SymbolStrings(tickers), fetch)
    ensures Run(tickers, fetch, budget).Err?
    ensures Run(tickers, fetch, budget).error.MissingSymbol?
  {
  }

  /** What a run promises of its sized table, for the tickers it was given:
      `min(50, n)` rows, scores in [0, 100] and non-increasing, every row
      one of those tickers, and, with positive prices, no more spent than
      the budget. */
  predicate Delivers(trades: seq<Trade>, tickers: seq<string>, budget: real) {
    && |trades| == Min(TopCount, |tickers|)
    && (forall i, j :: 0 <= i < j < |trades| ==> trades[i].row.hqm >= trades[j].row.hqm)
    && (forall i :: 0 <= i < |trades| ==> trades[i].row.stock.ticker in tickers)
    && (forall i :: 0 <= i < |trades| ==> 0.0 <= trades[i].row.hqm <= 100.0)
    && ((forall i :: 0 <= i < |trades| ==> trades[i].row.stock.price > 0.0) ==> Spent(trades) <= budget)
  }

  /** Every selected row is the scored row of one of the requested
      symbols. */
  lemma SelectedTickers(quotes: seq<Quote>)
    ensures forall i :: 0 <= i < |SelectTop(Universe(quotes))| ==>
              SelectTop(Universe(quotes))[i].stock.ticker in Tickers(quotes)
    ensures forall i :: 0 <= i < |SelectTop(Universe(quotes))| ==>
              0.0 <= SelectTop(Universe(quotes))[i].hqm <= 100.0
  {
    var scored := Universe(quotes);
    var top := SelectTop(scored);
    forall i | 0 <= i < |top|
      ensures top[i].stock.ticker in Tickers(quotes)
      ensures 0.0 <= top[i].hqm <= 100.0
    {
      KeptIsFromTable(scored, top, TopCount, i);
      assert top[i] in scored;
      var k :| 0 <= k < |scored| && scored[k] == top[i];
      assert scored[k].stock.ticker == quotes[k].ticker;
      assert Tickers(quotes)[k] == quotes[k].ticker;
    }
  }

  /** Sizing keeps the selection: the trades are for exactly the top rows
      of the scored table, in order. */
  lemma SizedIsTop(scored: seq<Scored>, budget: real)
    ensures var r := SizePositions(budget, SelectTop(scored));
            r.Ok? ==> IsTop(scored, Rows(r.value), TopCount)
  {
    var top := SelectTop(scored);
    var r := SizePositions(budget, top);
    if r.Ok? {
      var kept := Rows(r.value);
      assert |kept| == |top|;
      forall i | 0 <= i < |top| ensures kept[i] == top[i] {
        assert r.value[i].row == top[i];
      }
      assert kept == top;
      assert IsTop(scored, top, TopCount);
    }
  }

  /** The sized table built from a fetched table: the top rows of its scored
      universe, with the promises of `Delivers`. */
  lemma SizedProperties(quotes: seq<Quote>, budget: real)
    ensures var r := SizePositions(budget, SelectTop(Universe(quotes)));
            r.Ok? ==> Delivers(r.value, Tickers(quotes), budget) && IsTop(Universe(quotes), Rows(r.value), TopCount)
  {
    SizedIsTop(Universe(quotes), budget);
    var top := SelectTop(Universe(quotes));
    var r := SizePositions(budget, top);
    if r.Ok? {
      var trades := r.value;
      assert |Tickers(quotes)| == |quotes|;
      assert Descending(top);
      forall i, j | 0 <= i < j < |trades|
        ensures trades[i].row.hqm >= trades[j].row.hqm
      {
        assert trades[i].row == top[i] && trades[j].row == top[j];
      }
      SelectedTickers(quotes);
      forall i | 0 <= i < |trades|
        ensures trades[i].row.stock.ticker in Tickers(quotes)
        ensures 0.0 <= trades[i].row.hqm <= 100.0
      {
        assert trades[i].row == top[i];
      }
      if forall i :: 0 <= i < |trades| ==> trades[i].row.stock.price > 0.0 {
        forall i | 0 <= i < |top| ensures top[i].stock.price > 0.0 {
          assert trades[i].row == top[i];
        }
        NoOverspend(budget, top);
      }
    }
  }

  /** A successful run over comma-free tickers delivers its promise for the
      loaded tickers, and its rows are the top 50 of the scored table built
      from the responses. */
  lemma RunProperties(tickers: seq<string>, fetch: string -> Response, budget: real)
    requires forall k :: 0 <= k < |tickers| ==> CommaFree(tickers[k])
    ensures Run(tickers, fetch, budget).Ok? ==> Delivers(Run(tickers, fetch, budget).value, tickers, budget)
    ensures Run(tickers, fetch, budget).Ok? ==>
              && Tabulate(SymbolStrings(tickers), fetch).Ok?
              && IsTop(Universe(Tabulate(SymbolStrings(tickers), fetch).value), Rows(Run(tickers, fetch, budget).value), TopCount)
  {
    var t := Tabulate(SymbolStrings(tickers), fetch);
    if t.Ok? {
      var quotes := t.value;
      BatchRoundTrip(tickers);
      assert Tickers(quotes) == tickers;
      SizedProperties(quotes, budget);
    }
  }
}
