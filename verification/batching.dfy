/** Splitting the ticker universe into request batches: the `chunks` generator,
    the comma join that builds one symbol string per batch, and Python's
    `str.split(',')` that recovers the symbols from it. */
module Batching {
  import opened Types

  /** Symbols per quote request. */
  const BatchSize: nat := 100

  /** Concatenation of a sequence of sequences. */
  function Flatten<T>(xss: seq<seq<T>>): (r: seq<T>)
  {
    if |xss| == 0 then [] else xss[0] + Flatten(xss[1..])
  }

  /** The slices `lst[i:i+n]` for `i` in `range(start, len(lst), n)`; the
      generator is `ChunksFrom(lst, 0, n)`. Python clamps the slice end to the
      length, hence the `Min`. */
  function ChunksFrom<T>(lst: seq<T>, start: nat, n: nat): (c: seq<seq<T>>)
    requires n > 0
    requires start <= |lst|
    ensures forall k :: 0 <= k < |c| ==> 0 < |c[k]| <= n
    ensures forall k :: 0 <= k < |c| - 1 ==> |c[k]| == n
    ensures Flatten(c) == lst[start..]
    ensures (|c| - 1) * n < |lst| - start <= |c| * n
    decreases |lst| - start
  {
    if start == |lst| then []
    else
      var stop := Min(start + n, |lst|);
      var rest := ChunksFrom(lst, stop, n);
      var c := [lst[start..stop]] + rest;
      assert c[1..] == rest;
      assert lst[start..] == lst[start..stop] + lst[stop..];
      assert (|rest| + 1) * n == |rest| * n + n;
      assert (|rest| - 1) * n == |rest| * n - n;
      c
  }

  /** `chunks(lst, n)`: consecutive slices of at most `n` elements. A step of
      zero makes Python's `range` raise, so `n` must be positive. */
  function Chunks<T>(lst: seq<T>, n: nat): (c: seq<seq<T>>)
    requires n > 0
    ensures Flatten(c) == lst
    ensures forall k :: 0 <= k < |c| ==> 0 < |c[k]| <= n
    ensures forall k :: 0 <= k < |c| - 1 ==> |c[k]| == n
    ensures |c| == (|lst| + n - 1) / n
  {
    var c := ChunksFrom(lst, 0, n);
    CeilingDivision(|lst|, n, |c|);
    c
  }

  /** If `m` is the least multiple count covering `len`, it is the ceiling
      of `len / n`. */
  lemma CeilingDivision(len: nat, n: nat, m: int)
    requires n > 0
    requires (m - 1) * n < len <= m * n
    ensures m == (len + n - 1) / n
  {
    var q := (len + n - 1) / n;
    var r := (len + n - 1) % n;
    assert len + n - 1 == q * n + r && 0 <= r < n;
    assert q * n < (m + 1) * n by {
      assert (m + 1) * n == m * n + n;
    }
    CancelFactor(q, m + 1, n);
    assert (m - 1) * n < q * n;
    CancelFactor(m - 1, q, n);
  }

  /** A positive factor can be cancelled from a strict inequality. */
  lemma CancelFactor(a: int, b: int, n: int)
    requires n > 0
    requires a * n < b * n
    ensures a < b
  {
    assert (b - a) * n == b * n - a * n;
    assert (b - a) * n > 0;
  }

  /** Total length of the strings of `group`. */
  function TotalLength(group: seq<string>): nat {
    if |group| == 0 then 0 else |group[0]| + TotalLength(group[1..])
  }

  /** Python `','.join(group)`: the symbols in order with one comma between
      each neighbouring pair, starting with the first symbol. */
  function Join(group: seq<string>): (s: string)
    ensures |group| > 0 ==> |s| == TotalLength(group) + |group| - 1
    ensures |group| > 0 ==> group[0] <= s
    ensures |group| == 0 ==> s == ""
  {
    if |group| == 0 then ""
    else if |group| == 1 then group[0]
    else group[0] + "," + Join(group[1..])
  }

  predicate CommaFree(s: string) {
    forall k :: 0 <= k < |s| ==> s[k] != ','
  }

  function CommaCount(s: string): nat {
    if |s| == 0 then 0 else (if s[0] == ',' then 1 else 0) + CommaCount(s[1..])
  }

  /** Python `s.split(',')`: the pieces between commas, always at least one
      (the empty string splits into `[""]`). */
  function Split(s: string): (parts: seq<string>)
    ensures |parts| == CommaCount(s) + 1
    ensures forall k :: 0 <= k < |parts| ==> CommaFree(parts[k])
  {
    if |s| == 0 then [""]
    else
      var rest := Split(s[1..]);
      if s[0] == ',' then [""] + rest
      else [[s[0]] + rest[0]] + rest[1..]
  }

  /** Splitting a comma-free prefix glued to `s` only extends the first piece. */
  lemma {:induction false} SplitPrefix(a: string, s: string)
    requires CommaFree(a)
    ensures Split(a + s) == [a + Split(s)[0]] + Split(s)[1..]
    decreases |a|
  {
    if |a| == 0 {
      assert a + s == s;
      assert a + Split(s)[0] == Split(s)[0];
    } else {
      assert (a + s)[1..] == a[1..] + s;
      SplitPrefix(a[1..], s);
      assert [a[0]] + (a[1..] + Split(s)[0]) == a + Split(s)[0];
    }
  }

  /** Splitting the joined batch string gives the batch back, provided the
      batch is non-empty (`''.split(',')` is `['']`) and no symbol contains
      a comma. */
  lemma {:induction false} SplitJoin(group: seq<string>)
    requires |group| > 0
    requires forall k :: 0 <= k < |group| ==> CommaFree(group[k])
    ensures Split(Join(group)) == group
    decreases |group|
  {
    if |group| == 1 {
      SplitPrefix(group[0], "");
      assert group[0] + "" == group[0];
    } else {
      var tail := Join(group[1..]);
      SplitJoin(group[1..]);
      assert Join(group) == group[0] + ("," + tail);
      SplitPrefix(group[0], "," + tail);
      assert ("," + tail)[1..] == tail;
      assert Split("," + tail) == [""] + group[1..];
      assert group[0] + "" == group[0];
    }
  }

  /** Joining the pieces of any string restores it: no information is lost
      by `split`. */
  lemma {:induction false} JoinSplit(s: string)
    ensures Join(Split(s)) == s
    decreases |s|
  {
    if |s| > 0 {
      JoinSplit(s[1..]);
      if s[0] == ',' {
        JoinSplitComma(s);
      } else {
        JoinSplitSymbol(s);
      }
    }
  }

  /** A leading comma: an empty first piece, then the pieces of the rest. */
  lemma JoinSplitComma(s: string)
    requires |s| > 0 && s[0] == ','
    requires Join(Split(s[1..])) == s[1..]
    ensures Join(Split(s)) == s
  {
    var rest := Split(s[1..]);
    var parts := [""] + rest;
    assert Split(s) == parts;
    assert parts[1..] == rest;
    assert Join(parts) == "" + "," + Join(rest);
    assert s == "" + "," + s[1..];
  }

  /** A leading non-comma: it extends the first piece of the rest. */
  lemma JoinSplitSymbol(s: string)
    requires |s| > 0 && s[0] != ','
    requires Join(Split(s[1..])) == s[1..]
    ensures Join(Split(s)) == s
  {
    var rest := Split(s[1..]);
    var parts := [[s[0]] + rest[0]] + rest[1..];
    assert Split(s) == parts;
    assert s == [s[0]] + s[1..];
    if |rest| == 1 {
      assert Join(rest) == rest[0];
      assert Join(parts) == [s[0]] + rest[0];
    } else {
      assert parts[1..] == rest[1..];
      assert Join(parts) == ([s[0]] + rest[0]) + "," + Join(rest[1..]);
      assert Join(rest) == rest[0] + "," + Join(rest[1..]);
      RegroupJoin([s[0]], rest[0], Join(rest[1..]));
    }
  }

  /** Moving the leading character out of the first joined piece. */
  lemma RegroupJoin(c: string, a: string, b: string)
    ensures (c + a) + "," + b == c + (a + "," + b)
  {
  }


  /** One comma-joined symbol string per batch. */
  function JoinAll(groups: seq<seq<string>>): (strings: seq<string>)
    ensures |strings| == |groups|
    ensures forall k :: 0 <= k < |groups| ==> strings[k] == Join(groups[k])
  {
    if |groups| == 0 then [] else [Join(groups[0])] + JoinAll(groups[1..])
  }

  /** The symbol strings sent to the quote endpoint, one per batch of
      `BatchSize` tickers. */
  function SymbolStrings(tickers: seq<string>): (strings: seq<string>)
    ensures |strings| == (|tickers| + BatchSize - 1) / BatchSize
  {
    JoinAll(Chunks(tickers, BatchSize))
  }

  /** The symbols read back from the symbol strings, in request order. */
  function Symbols(strings: seq<string>): (symbols: seq<string>)
    ensures |symbols| >= |strings|
    ensures forall k :: 0 <= k < |symbols| ==> CommaFree(symbols[k])
  {
    if |strings| == 0 then [] else Split(strings[0]) + Symbols(strings[1..])
  }

  /** Splitting every joined batch back yields the batches themselves. */
  lemma {:induction false} SplitJoinAll(groups: seq<seq<string>>)
    requires forall k :: 0 <= k < |groups| ==> |groups[k]| > 0
    requires forall k, j :: 0 <= k < |groups| && 0 <= j < |groups[k]| ==> CommaFree(groups[k][j])
    ensures Symbols(JoinAll(groups)) == Flatten(groups)
    decreases |groups|
  {
    if |groups| > 0 {
      SplitJoin(groups[0]);
      SplitJoinAll(groups[1..]);
      assert JoinAll(groups)[1..] == JoinAll(groups[1..]);
    }
  }

  /** With comma-free tickers, the rows are built for exactly the loaded
      tickers, in file order: batching, joining and splitting lose, add and
      reorder nothing. */
  lemma BatchRoundTrip(tickers: seq<string>)
    requires forall k :: 0 <= k < |tickers| ==> CommaFree(tickers[k])
    ensures Symbols(SymbolStrings(tickers)) == tickers
  {
    var groups := Chunks(tickers, BatchSize);
    forall k, j | 0 <= k < |groups| && 0 <= j < |groups[k]|
      ensures CommaFree(groups[k][j])
    {
      FlattenMember(groups, k, j);
    }
    SplitJoinAll(groups);
  }

  /** Every element of a part is an element of the concatenation. */
  lemma {:induction false} FlattenMember<T>(xss: seq<seq<T>>, k: nat, j: nat)
    requires k < |xss| && j < |xss[k]|
    ensures xss[k][j] in Flatten(xss)
    decreases k
  {
    if k > 0 {
      FlattenMember(xss[1..], k - 1, j);
    }
  }
}
