/** Selection: sort the scored table by HQM score, highest first, and keep
    the first 50 rows. The sort in the source is not stable, so nothing here
    depends on the order of rows with equal scores. */
module Selection {
  import opened Types

  /** Rows kept after sorting. */
  const TopCount: nat := 50

  /** Scores never increase along `s`. */
  predicate Descending(s: seq<Scored>) {
    forall i, j :: 0 <= i < j < |s| ==> s[i].hqm >= s[j].hqm
  }

  /** Place `x` into a descending sequence before the first row it scores
      at least as high as. */
  function Insert(x: Scored, s: seq<Scored>): (r: seq<Scored>)
    requires Descending(s)
    ensures Descending(r)
    ensures multiset(r) == multiset(s) + multiset{x}
    ensures |r| == |s| + 1
  {
    if |s| == 0 || x.hqm >= s[0].hqm then [x] + s
    else
      var tail := Insert(x, s[1..]);
      assert s == [s[0]] + s[1..];
      forall z | z in tail ensures z.hqm <= s[0].hqm {
        assert z in multiset(tail);
        assert z == x || z in multiset(s[1..]);
      }
      DescendingCons(s[0], tail);
      [s[0]] + tail
  }

  lemma DescendingCons(h: Scored, t: seq<Scored>)
    requires Descending(t)
    requires forall z :: z in t ==> z.hqm <= h.hqm
    ensures Descending([h] + t)
  {
    var r := [h] + t;
    forall i, j | 0 <= i < j < |r| ensures r[i].hqm >= r[j].hqm {
      assert r[j] == t[j - 1];
      if i > 0 {
        assert r[i] == t[i - 1];
      }
    }
  }

  /** `sort_values('HQM Score', ascending = False)`: a descending
      rearrangement of the rows. */
  function SortByScore(rows: seq<Scored>): (s: seq<Scored>)
    ensures Descending(s)
    ensures multiset(s) == multiset(rows)
    ensures |s| == |rows|
  {
    if |rows| == 0 then []
    else
      assert rows == [rows[0]] + rows[1..];
      Insert(rows[0], SortByScore(rows[1..]))
  }

  /** The rows left out of the selection `kept`. */
  function Dropped(rows: seq<Scored>, kept: seq<Scored>): multiset<Scored> {
    multiset(rows) - multiset(kept)
  }

  /** What a top-`k` selection promises: `k` rows (or all of them when
      fewer), in descending order, drawn from the table, none scoring below
      a row left out. */
  predicate IsTop(rows: seq<Scored>, kept: seq<Scored>, k: nat) {
    && |kept| == Min(k, |rows|)
    && Descending(kept)
    && multiset(kept) <= multiset(rows)
    && forall x, y :: x in Dropped(rows, kept) && y in kept ==> y.hqm >= x.hqm
  }

  /** Whatever order a descending sort gives tied rows, its first `k` rows
      are a top-`k` selection. */
  lemma PrefixOfSortedIsTop(rows: seq<Scored>, s: seq<Scored>, k: nat)
    requires Descending(s)
    requires multiset(s) == multiset(rows)
    ensures IsTop(rows, s[..Min(k, |s|)], k)
  {
    var m := Min(k, |s|);
    assert |s| == |rows| by {
      assert |multiset(s)| == |multiset(rows)|;
    }
    var kept, rest := s[..m], s[m..];
    assert |kept| == Min(k, |rows|);
    assert Descending(kept) by {
      forall i, j | 0 <= i < j < |kept| ensures kept[i].hqm >= kept[j].hqm {
        assert kept[i] == s[i] && kept[j] == s[j];
      }
    }
    assert s == kept + rest;
    assert multiset(s) == multiset(kept) + multiset(rest);
    assert multiset(kept) <= multiset(rows);
    assert Dropped(rows, kept) == multiset(rest);
    PrefixAboveSuffix(s, m);
  }

  /** In a descending sequence, no row of a prefix scores below a row of
      the matching suffix. */
  lemma PrefixAboveSuffix(s: seq<Scored>, m: nat)
    requires Descending(s)
    requires m <= |s|
    ensures forall x, y :: x in multiset(s[m..]) && y in s[..m] ==> y.hqm >= x.hqm
  {
    var kept, rest := s[..m], s[m..];
    forall x: Scored, y: Scored | x in multiset(rest) && y in kept
      ensures y.hqm >= x.hqm
    {
      assert x in rest;
      var j :| 0 <= j < |rest| && rest[j] == x;
      var i :| 0 <= i < |kept| && kept[i] == y;
      assert s[i] == y && s[m + j] == x;
    }
  }

  /** Sort by HQM score, highest first, and keep the first 50 rows; the
      re-index is the sequence's own 0-based indexing. */
  function SelectTop(rows: seq<Scored>): (kept: seq<Scored>)
    ensures IsTop(rows, kept, TopCount)
  {
    var s := SortByScore(rows);
    PrefixOfSortedIsTop(rows, s, TopCount);
    s[..Min(TopCount, |s|)]
  }

  /** Every kept row is a row of the table. */
  lemma KeptIsFromTable(rows: seq<Scored>, kept: seq<Scored>, k: nat, i: nat)
    requires IsTop(rows, kept, k)
    requires i < |kept|
    ensures kept[i] in rows
  {
    assert kept[i] in multiset(kept);
    assert kept[i] in multiset(rows);
  }
}
