/** Building the table from the quote responses, and the zero-fill of null
    values. The HTTP request itself is not modelled: `fetch` stands for the
    decoded response of one batch request, keyed by symbol. */
module Fetch {
  import opened Types
  import opened Batching

  /** One symbol's entry in a batch response: its price and the four
      percentage-change statistics, each possibly null. */
  datatype Entry = Entry(price: Option<real>, stats: Windowed<Option<real>>)

  type Response = map<string, Entry>

  function QuoteOf(symbol: string, e: Entry): Quote {
    Quote(symbol, e.price, e.stats)
  }

  /** The rows for the symbols of one batch, read from that batch's
      response in symbol order. The first symbol without an entry stops the
      run (`data[symbol]` raises). */
  function Lookup(symbols: seq<string>, data: Response): (r: Result<seq<Quote>>)
    ensures r.Ok? <==> forall k :: 0 <= k < |symbols| ==> symbols[k] in data
    ensures r.Ok? ==> |r.value| == |symbols|
    ensures r.Ok? ==> forall k :: 0 <= k < |symbols| ==>
              r.value[k].ticker == symbols[k] && r.value[k] == QuoteOf(symbols[k], data[symbols[k]])
    ensures r.Err? ==> exists k :: (0 <= k < |symbols| && symbols[k] !in data
              && r.error == MissingSymbol(symbols[k])
              && forall j :: 0 <= j < k ==> symbols[j] in data)
  {
    if |symbols| == 0 then Ok([])
    else if symbols[0] !in data then Err(MissingSymbol(symbols[0]))
    else
      match Lookup(symbols[1..], data)
      case Err(e) =>
        assert forall j :: 1 <= j < |symbols| ==> symbols[j] == symbols[1..][j - 1];
        Err(e)
      case Ok(rest) => Ok([QuoteOf(symbols[0], data[symbols[0]])] + rest)
  }

  function Tickers(quotes: seq<Quote>): (ts: seq<string>)
    ensures |ts| == |quotes|
    ensures forall k :: 0 <= k < |quotes| ==> ts[k] == quotes[k].ticker
  {
    if |quotes| == 0 then [] else [quotes[0].ticker] + Tickers(quotes[1..])
  }

  /** Every symbol of every batch has an entry in that batch's response. */
  predicate AllListed(strings: seq<string>, fetch: string -> Response) {
    forall i, k :: 0 <= i < |strings| && 0 <= k < |Split(strings[i])| ==>
      Split(strings[i])[k] in fetch(strings[i])
  }

  /** Every symbol of batch `i` has its row at its own position in the table,
      after the rows of the batches before it, and that row is the symbol's
      entry in the response to batch `i` itself (a ticker repeated in
      several batches takes each batch's own entry). */
  predicate FromOwnBatch(quotes: seq<Quote>, strings: seq<string>, fetch: string -> Response) {
    forall i, k :: 0 <= i < |strings| && 0 <= k < |Split(strings[i])| ==>
      && Split(strings[i])[k] in fetch(strings[i])
      && |Symbols(strings[..i])| + k < |quotes|
      && quotes[|Symbols(strings[..i])| + k] == QuoteOf(Split(strings[i])[k], fetch(strings[i])[Split(strings[i])[k]])
  }

  /** `e` reports the first symbol, in request order, that its batch's
      response lacks: every earlier batch is fully listed, and so is every
      earlier symbol of its own batch. */
  predicate ReportsFirstMissing(e: Error, strings: seq<string>, fetch: string -> Response) {
    exists i, k :: 0 <= i < |strings| && 0 <= k < |Split(strings[i])| &&
      Split(strings[i])[k] !in fetch(strings[i]) && e == MissingSymbol(Split(strings[i])[k]) &&
      AllListed(strings[..i], fetch) &&
      forall j :: 0 <= j < k ==> Split(strings[i])[j] in fetch(strings[i])
  }

  /** The table built batch by batch: for each symbol string, request it,
      split it on commas and append one row per symbol. */
  function Tabulate(strings: seq<string>, fetch: string -> Response): (r: Result<seq<Quote>>)
    ensures r.Ok? <==> AllListed(strings, fetch)
    ensures r.Ok? ==> Tickers(r.value) == Symbols(strings)
    ensures r.Ok? ==> FromOwnBatch(r.value, strings, fetch)
    ensures r.Err? ==> ReportsFirstMissing(r.error, strings, fetch)
  {
    if |strings| == 0 then Ok([])
    else
      match Lookup(Split(strings[0]), fetch(strings[0]))
      case Err(e) =>
        FirstMissingHead(strings, fetch, e);
        Err(e)
      case Ok(first) =>
        match Tabulate(strings[1..], fetch)
        case Err(e) =>
          AllListedTail(strings, fetch);
          FirstMissingTail(strings, fetch, e);
          Err(e)
        case Ok(rest) =>
          TabulateCons(strings, fetch, first, rest);
          Ok(first + rest)
  }

  /** The symbols of the first batch all have entries in its response. */
  predicate FirstListed(strings: seq<string>, fetch: string -> Response)
    requires |strings| > 0
  {
    forall k :: 0 <= k < |Split(strings[0])| ==> Split(strings[0])[k] in fetch(strings[0])
  }

  /** The first batch already lacks a symbol: the first such symbol is the
      first missing one overall. */
  lemma FirstMissingHead(strings: seq<string>, fetch: string -> Response, e: Error)
    requires |strings| > 0
    requires Lookup(Split(strings[0]), fetch(strings[0])) == Err(e)
    ensures ReportsFirstMissing(e, strings, fetch)
  {
    var symbols := Split(strings[0]);
    var k :| 0 <= k < |symbols| && symbols[k] !in fetch(strings[0]) && e == MissingSymbol(symbols[k])
      && forall j :: 0 <= j < k ==> symbols[j] in fetch(strings[0]);
    assert strings[..0] == [];
    assert AllListed(strings[..0], fetch);
  }

  /** The first batch is fully listed: the first missing symbol of the
      remaining batches is the first missing one overall. */
  lemma FirstMissingTail(strings: seq<string>, fetch: string -> Response, e: Error)
    requires |strings| > 0
    requires Lookup(Split(strings[0]), fetch(strings[0])).Ok?
    requires ReportsFirstMissing(e, strings[1..], fetch)
    ensures ReportsFirstMissing(e, strings, fetch)
  {
    var tail := strings[1..];
    var i, k :| 0 <= i < |tail| && 0 <= k < |Split(tail[i])| &&
      Split(tail[i])[k] !in fetch(tail[i]) && e == MissingSymbol(Split(tail[i])[k]) &&
      AllListed(tail[..i], fetch) &&
      forall j :: 0 <= j < k ==> Split(tail[i])[j] in fetch(tail[i]);
    var before := strings[..i + 1];
    assert before[0] == strings[0];
    assert before[1..] == tail[..i];
    assert FirstListed(before, fetch);
    AllListedJoin(before, fetch);
    assert tail[i] == strings[i + 1];
  }

  lemma AllListedTail(strings: seq<string>, fetch: string -> Response)
    requires |strings| > 0
    ensures AllListed(strings, fetch) <==> FirstListed(strings, fetch) && AllListed(strings[1..], fetch)
  {
    if FirstListed(strings, fetch) && AllListed(strings[1..], fetch) {
      AllListedJoin(strings, fetch);
    }
    if AllListed(strings, fetch) {
      AllListedSplit(strings, fetch);
    }
  }

  lemma AllListedJoin(strings: seq<string>, fetch: string -> Response)
    requires |strings| > 0
    requires FirstListed(strings, fetch) && AllListed(strings[1..], fetch)
    ensures AllListed(strings, fetch)
  {
    var tail := strings[1..];
    forall i, k | 0 <= i < |strings| && 0 <= k < |Split(strings[i])|
      ensures Split(strings[i])[k] in fetch(strings[i])
    {
      if i > 0 {
        assert strings[i] == tail[i - 1];
      }
    }
  }

  lemma AllListedSplit(strings: seq<string>, fetch: string -> Response)
    requires |strings| > 0
    requires AllListed(strings, fetch)
    ensures FirstListed(strings, fetch) && AllListed(strings[1..], fetch)
  {
    var tail := strings[1..];
    forall i, k | 0 <= i < |tail| && 0 <= k < |Split(tail[i])|
      ensures Split(tail[i])[k] in fetch(tail[i])
    {
      assert tail[i] == strings[i + 1];
    }
  }

  /** The success case of `Tabulate`: the first batch's rows followed by
      the rows of the remaining batches. */
  lemma TabulateCons(strings: seq<string>, fetch: string -> Response, first: seq<Quote>, rest: seq<Quote>)
    requires |strings| > 0
    requires Lookup(Split(strings[0]), fetch(strings[0])) == Ok(first)
    requires AllListed(strings[1..], fetch)
    requires Tickers(rest) == Symbols(strings[1..])
    requires FromOwnBatch(rest, strings[1..], fetch)
    ensures AllListed(strings, fetch)
    ensures Tickers(first + rest) == Symbols(strings)
    ensures FromOwnBatch(first + rest, strings, fetch)
  {
    AllListedTail(strings, fetch);
    LookupTickers(Split(strings[0]), fetch(strings[0]), first);
    TickersCons(strings, first, rest);
    FromOwnBatchCons(strings, fetch, first, rest);
  }

  lemma LookupTickers(symbols: seq<string>, data: Response, quotes: seq<Quote>)
    requires Lookup(symbols, data) == Ok(quotes)
    ensures Tickers(quotes) == symbols
  {
  }

  lemma TickersCons(strings: seq<string>, first: seq<Quote>, rest: seq<Quote>)
    requires |strings| > 0
    requires Tickers(first) == Split(strings[0])
    requires Tickers(rest) == Symbols(strings[1..])
    ensures Tickers(first + rest) == Symbols(strings)
  {
    TickersAppend(first, rest);
  }

  /** The rows of the first batch, from its own response, followed by rows
      placed batch by batch for the remaining batches. */
  lemma FromOwnBatchCons(strings: seq<string>, fetch: string -> Response, first: seq<Quote>, rest: seq<Quote>)
    requires |strings| > 0
    requires Lookup(Split(strings[0]), fetch(strings[0])) == Ok(first)
    requires FromOwnBatch(rest, strings[1..], fetch)
    ensures FromOwnBatch(first + rest, strings, fetch)
  {
    forall i, k | 0 <= i < |strings| && 0 <= k < |Split(strings[i])|
      ensures Split(strings[i])[k] in fetch(strings[i])
      ensures |Symbols(strings[..i])| + k < |first + rest|
      ensures (first + rest)[|Symbols(strings[..i])| + k] ==
                QuoteOf(Split(strings[i])[k], fetch(strings[i])[Split(strings[i])[k]])
    {
      if i == 0 {
        FirstBatchRow(strings, fetch, first, rest, k);
      } else {
        LaterBatchRow(strings, fetch, first, rest, i, k);
      }
    }
  }

  /** A symbol of the first batch: its row is the first batch's own. */
  lemma FirstBatchRow(strings: seq<string>, fetch: string -> Response, first: seq<Quote>, rest: seq<Quote>, k: nat)
    requires |strings| > 0
    requires Lookup(Split(strings[0]), fetch(strings[0])) == Ok(first)
    requires k < |Split(strings[0])|
    ensures Split(strings[0])[k] in fetch(strings[0])
    ensures |Symbols(strings[..0])| + k < |first + rest|
    ensures (first + rest)[|Symbols(strings[..0])| + k] ==
              QuoteOf(Split(strings[0])[k], fetch(strings[0])[Split(strings[0])[k]])
  {
    assert strings[..0] == [];
    assert (first + rest)[k] == first[k];
  }

  /** A symbol of a later batch: its row is the remaining batches' row,
      shifted past the first batch's rows. */
  lemma LaterBatchRow(strings: seq<string>, fetch: string -> Response, first: seq<Quote>, rest: seq<Quote>, i: nat, k: nat)
    requires 0 < i < |strings|
    requires Lookup(Split(strings[0]), fetch(strings[0])) == Ok(first)
    requires FromOwnBatch(rest, strings[1..], fetch)
    requires k < |Split(strings[i])|
    ensures Split(strings[i])[k] in fetch(strings[i])
    ensures |Symbols(strings[..i])| + k < |first + rest|
    ensures (first + rest)[|Symbols(strings[..i])| + k] ==
              QuoteOf(Split(strings[i])[k], fetch(strings[i])[Split(strings[i])[k]])
  {
    var tail := strings[1..];
    assert strings[i] == tail[i - 1];
    SymbolsPrefix(strings, i);
    var off := |Symbols(tail[..i - 1])|;
    assert Split(tail[i - 1])[k] in fetch(tail[i - 1]);
    assert off + k < |rest|;
    assert |Symbols(strings[..i])| + k == |first| + off + k;
    assert (first + rest)[|first| + off + k] == rest[off + k];
  }

  /** The symbols of the first `i` batches: the first batch's, then those of
      the next `i - 1`. */
  lemma SymbolsPrefix(strings: seq<string>, i: nat)
    requires 0 < i <= |strings|
    ensures Symbols(strings[..i]) == Split(strings[0]) + Symbols(strings[1..][..i - 1])
  {
    assert strings[..i][0] == strings[0];
    assert strings[..i][1..] == strings[1..][..i - 1];
  }

  lemma {:induction false} TickersAppend(a: seq<Quote>, b: seq<Quote>)
    ensures Tickers(a + b) == Tickers(a) + Tickers(b)
  {
  }

  /** A ticker requested in two batches gets one row per request, each
      from its own batch's response: "A" alone, then "A,B". */
  lemma RepeatedTickerScenario(fetch: string -> Response, e1: Entry, e2: Entry, e3: Entry)
    requires fetch("A") == map["A" := e1]
    requires fetch("A,B") == map["A" := e2, "B" := e3]
    ensures Tabulate(["A", "A,B"], fetch) == Ok([QuoteOf("A", e1), QuoteOf("A", e2), QuoteOf("B", e3)])
  {
    var first := [QuoteOf("A", e1)];
    var second := [QuoteOf("A", e2), QuoteOf("B", e3)];
    ScenarioSplits();
    ScenarioLookups(fetch, e1, e2, e3);
    assert Tabulate(["A,B"], fetch) == Ok(second) by {
      assert ["A,B"][1..] == [];
      assert second + [] == second;
    }
    assert ["A", "A,B"][1..] == ["A,B"];
    assert first + second == [QuoteOf("A", e1), QuoteOf("A", e2), QuoteOf("B", e3)];
  }

  lemma ScenarioSplits()
    ensures Split("A") == ["A"]
    ensures Split("A,B") == ["A", "B"]
  {
    assert Join(["A"]) == "A";
    assert Join(["A", "B"]) == "A,B";
    SplitJoin(["A"]);
    SplitJoin(["A", "B"]);
  }

  lemma ScenarioLookups(fetch: string -> Response, e1: Entry, e2: Entry, e3: Entry)
    requires fetch("A") == map["A" := e1]
    requires fetch("A,B") == map["A" := e2, "B" := e3]
    ensures Lookup(["A"], fetch("A")) == Ok([QuoteOf("A", e1)])
    ensures Lookup(["A", "B"], fetch("A,B")) == Ok([QuoteOf("A", e2), QuoteOf("B", e3)])
  {
    var none: seq<string> := [];
    assert Lookup(none, fetch("A")) == Ok([]);
    assert Lookup(none, fetch("A,B")) == Ok([]);
    assert Lookup(["A"], fetch("A")) == Ok([QuoteOf("A", e1)]) by {
      assert ["A"][1..] == none;
      assert "A" in fetch("A");
      assert [QuoteOf("A", e1)] + [] == [QuoteOf("A", e1)];
    }
    assert Lookup(["B"], fetch("A,B")) == Ok([QuoteOf("B", e3)]) by {
      assert ["B"][1..] == none;
      assert "B" in fetch("A,B") && fetch("A,B")["B"] == e3;
      assert [QuoteOf("B", e3)] + [] == [QuoteOf("B", e3)];
    }
    assert Lookup(["A", "B"], fetch("A,B")) == Ok([QuoteOf("A", e2), QuoteOf("B", e3)]) by {
      assert ["A", "B"][1..] == ["B"];
      assert "A" in fetch("A,B") && fetch("A,B")["A"] == e2;
      assert [QuoteOf("A", e2)] + [QuoteOf("B", e3)] == [QuoteOf("A", e2), QuoteOf("B", e3)];
    }
  }

  /** `fillna(value = 0)`: every null value becomes 0; present values and
      the ticker are kept. The price column is filled too. */
  function FillMissing(q: Quote): (s: Stock)
    ensures s.ticker == q.ticker
    ensures q.price.Some? ==> s.price == q.price.value
    ensures q.price.None? ==> s.price == 0.0
    ensures forall w :: q.change.At(w).Some? ==> s.change.At(w) == q.change.At(w).value
    ensures forall w :: q.change.At(w).None? ==> s.change.At(w) == 0.0
  {
    Stock(
      q.ticker,
      q.price.GetOr(0.0),
      Windowed(
        q.change.oneYear.GetOr(0.0),
        q.change.sixMonth.GetOr(0.0),
        q.change.threeMonth.GetOr(0.0),
        q.change.oneMonth.GetOr(0.0)))
  }

  /** The quote a stock row would have come from had nothing been null. */
  function Complete(s: Stock): Quote {
    Quote(s.ticker, Some(s.price),
      Windowed(Some(s.change.oneYear), Some(s.change.sixMonth),
               Some(s.change.threeMonth), Some(s.change.oneMonth)))
  }

  /** A quote with nothing null passes through the zero-fill unchanged. */
  lemma FillCompleteIsIdentity(s: Stock)
    ensures FillMissing(Complete(s)) == s
  {
    assert forall w :: Complete(s).change.At(w) == Some(s.change.At(w));
  }

  /** The zero-fill applied to the whole table, row by row. */
  function FillTable(quotes: seq<Quote>): (stocks: seq<Stock>)
    ensures |stocks| == |quotes|
    ensures forall k :: 0 <= k < |quotes| ==> stocks[k] == FillMissing(quotes[k])
  {
    seq(|quotes|, k requires 0 <= k < |quotes| => FillMissing(quotes[k]))
  }
}
