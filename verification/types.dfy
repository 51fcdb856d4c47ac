/** Records that flow through the momentum pipeline, one datatype per stage of
    the table: the fetched quote, the zero-filled stock row, the scored row and
    the sized trade. Prices, returns and percentiles are exact rationals. */
module Types {

  /** The smaller of two counts, as Python's `min`. */
  function Min(a: int, b: int): int {
    if a <= b then a else b
  }

  /** An optional value. In a quote it is a field that is present in the
      response and may hold JSON null (`None`). */
  datatype Option<+T> = None | Some(value: T) {
    /** The value, or `default` when there is none. */
    function GetOr(default: T): (r: T)
      ensures Some? ==> r == value
      ensures None? ==> r == default
    {
      match this
      case Some(v) => v
      case None => default
    }
  }

  /** The four lookback windows, in the order the scoring loop visits them. */
  datatype Window = OneYear | SixMonth | ThreeMonth | OneMonth

  const Windows: seq<Window> := [OneYear, SixMonth, ThreeMonth, OneMonth]

  /** One value per lookback window: a return, or the percentile of one. */
  datatype Windowed<T> = Windowed(oneYear: T, sixMonth: T, threeMonth: T, oneMonth: T) {

    function At(w: Window): T {
      match w
      case OneYear => oneYear
      case SixMonth => sixMonth
      case ThreeMonth => threeMonth
      case OneMonth => oneMonth
    }

    /** This record with the value of window `w` replaced by `v`. */
    function With(w: Window, v: T): (r: Windowed<T>)
      ensures r.At(w) == v
      ensures forall u :: u != w ==> r.At(u) == At(u)
    {
      match w
      case OneYear => this.(oneYear := v)
      case SixMonth => this.(sixMonth := v)
      case ThreeMonth => this.(threeMonth := v)
      case OneMonth => this.(oneMonth := v)
    }
  }

  /** A row as it comes out of the quote response: price and the four
      percentage changes, any of which may be null. */
  datatype Quote = Quote(ticker: string, price: Option<real>, change: Windowed<Option<real>>)

  /** A row after null values have been replaced by zero. */
  datatype Stock = Stock(ticker: string, price: real, change: Windowed<real>)

  /** A row with its four window percentiles and its HQM (composite) score. */
  datatype Scored = Scored(stock: Stock, percentile: Windowed<real>, hqm: real)

  /** A selected row with the number of shares to buy. */
  datatype Trade = Trade(row: Scored, shares: int)

  /** The fatal conditions the pipeline can stop with. */
  datatype Error =
    | MissingSymbol(symbol: string)   // the quote response has no entry for a requested symbol
    | EmptySelection                  // nothing survived to position sizing
    | ZeroPrice(ticker: string)       // a selected row has price 0, so sizing divides by zero

  datatype Result<+T> = Ok(value: T) | Err(error: Error)
}
