/**
 * The frequency table of ColorMap (the `dict` field of app.ts) seen as a
 * value: counting, the total of all counts, and the ranking that
 * getOrderedSwatches derives from it.
 */
module Table {

  /** The table: one running count per colour key. */
  type Counts = map<string, nat>

  /** A (key, count) entry as getOrderedSwatches returns it. */
  type Swatch = (string, nat)

  /** The count of a key, an unseen key counting as 0. */
  function Count(m: Counts, k: string): nat
  {
    if k in m then m[k] else 0
  }

  /** The table after one more occurrence of key k (the body of addPixel). */
  function Increment(m: Counts, k: string): (r: Counts)
    ensures r.Keys == m.Keys + {k}
    ensures Count(r, k) == Count(m, k) + 1
    ensures forall k' :: k' != k ==> Count(r, k') == Count(m, k')
  {
    m[k := Count(m, k) + 1]
  }

  /** The sum of all counts in the table. */
  ghost function Total(m: Counts): nat
    decreases |m|
  {
    if m == map[] then 0
    else
      var k :| k in m;
      assert |m - {k}| < |m| by {
        assert (m - {k}).Keys == m.Keys - {k};
      }
      m[k] + Total(m - {k})
  }

  /** The total splits into any one entry plus the rest. */
  lemma {:induction false} TotalRemove(m: Counts, k: string)
    requires k in m
    ensures Total(m) == m[k] + Total(m - {k})
    decreases |m|
  {
    var j :| j in m && Total(m) == m[j] + Total(m - {j});
    if j != k {
      var mj, mk := m - {j}, m - {k};
      assert (mj - {k}) == (mk - {j});
      assert mj.Keys == m.Keys - {j} && mk.Keys == m.Keys - {k};
      TotalRemove(mj, k);
      TotalRemove(mk, j);
    }
  }

  /** Every increment adds exactly one to the total of all counts. */
  lemma TotalIncrement(m: Counts, k: string)
    ensures Total(Increment(m, k)) == Total(m) + 1
  {
    var r := Increment(m, k);
    TotalRemove(r, k);
    assert r - {k} == m - {k};
    if k in m {
      TotalRemove(m, k);
    } else {
      assert m - {k} == m;
    }
  }

  /** No single count exceeds the total. */
  lemma CountAtMostTotal(m: Counts, k: string)
    ensures Count(m, k) <= Total(m)
  {
    if k in m {
      TotalRemove(m, k);
    }
  }

  /** A table's entries are its keys paired with their counts. */
  lemma ItemsByKey(m: Counts)
    ensures (set k | k in m :: (k, m[k])) == m.Items
  {
    forall x | x in m.Items ensures x in (set k | k in m :: (k, m[k])) {
      assert x == (x.0, m[x.0]);
    }
  }

  /** Counts never increase along the list (the order getOrderedSwatches sorts into). */
  predicate NonIncreasing(s: seq<Swatch>)
  {
    forall i, j :: 0 <= i < j < |s| ==> s[i].1 >= s[j].1
  }

  /** s lists every entry of the table exactly once, by count non-increasing. */
  predicate IsRanking(s: seq<Swatch>, m: Counts)
  {
    NonIncreasing(s) && multiset(s) == multiset(m.Items)
  }

  /** Puts e after every entry whose count is at least e's. */
  function InsertByCount(s: seq<Swatch>, e: Swatch): (r: seq<Swatch>)
    requires NonIncreasing(s)
    ensures NonIncreasing(r)
    ensures multiset(r) == multiset(s) + multiset{e}
    decreases |s|
  {
    if s == [] || s[0].1 < e.1 then [e] + s
    else
      var rest := InsertByCount(s[1..], e);
      InsertBelowHead(s, e, rest);
      assert s == [s[0]] + s[1..];
      [s[0]] + rest
  }

  /** Putting the head of a ranked list before a ranked rearrangement of its tail and a smaller entry keeps it ranked. */
  lemma InsertBelowHead(s: seq<Swatch>, e: Swatch, rest: seq<Swatch>)
    requires NonIncreasing(s) && |s| > 0 && e.1 <= s[0].1
    requires NonIncreasing(rest) && multiset(rest) == multiset(s[1..]) + multiset{e}
    ensures NonIncreasing([s[0]] + rest)
  {
    forall j | 0 <= j < |rest| ensures rest[j].1 <= s[0].1 {
      assert rest[j] in multiset(rest);
      if rest[j] != e {
        assert rest[j] in s[1..];
      }
    }
  }

  /**
   * The sort of getOrderedSwatches (a comparator on counts, descending).
   * Which of two equal-count entries comes first is not promised.
   */
  function SortByCount(s: seq<Swatch>): (r: seq<Swatch>)
    ensures NonIncreasing(r)
    ensures multiset(r) == multiset(s)
    decreases |s|
  {
    if s == [] then []
    else
      assert s == s[..|s| - 1] + [s[|s| - 1]];
      InsertByCount(SortByCount(s[..|s| - 1]), s[|s| - 1])
  }

  /**
   * What a ranking holds: as many entries as the table, each a key of the
   * table with its count, every key present, and no key twice.
   */
  lemma RankingEntries(s: seq<Swatch>, m: Counts)
    requires IsRanking(s, m)
    ensures |s| == |m|
    ensures forall i :: 0 <= i < |s| ==> s[i].0 in m && m[s[i].0] == s[i].1
    ensures forall k :: k in m ==> (k, m[k]) in s
    ensures forall i, j :: 0 <= i < j < |s| ==> s[i].0 != s[j].0
  {
    assert |s| == |multiset(s)| == |multiset(m.Items)| == |m.Items|;
    forall i | 0 <= i < |s| ensures s[i].0 in m && m[s[i].0] == s[i].1 {
      assert s[i] in multiset(s);
    }
    forall k | k in m ensures (k, m[k]) in s {
      assert (k, m[k]) in m.Items;
      assert (k, m[k]) in multiset(m.Items);
    }
    forall i, j | 0 <= i < j < |s| ensures s[i].0 != s[j].0 {
      if s[i].0 == s[j].0 {
        assert s[i] == s[j];
        TwiceInSeq(s, i, j);
        assert false;
      }
    }
  }

  /** A value at two positions of a sequence occurs there at least twice. */
  lemma TwiceInSeq(s: seq<Swatch>, i: int, j: int)
    requires 0 <= i < j < |s| && s[i] == s[j]
    ensures multiset(s)[s[i]] >= 2
  {
    assert s == s[..j] + s[j..];
    assert s[i] in s[..j];
    assert s[j] in s[j..];
  }
}
