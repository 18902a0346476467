/**
 * The arithmetic ColorMapUI applies to a finished scan (app.ts, showSwatches
 * and getSwatch): keep the 20 most frequent entries and give each its share
 * of the image as a whole percentage.
 */
module ColorMapUI {
  import opened Table
  import opened Arithmetic

  /** How many swatches showSwatches keeps (`slice(0, 20)`). */
  const TopCount: nat := 20

  /** `swatches.slice(0, 20)`. */
  function TopSwatches(s: seq<Swatch>): (r: seq<Swatch>)
    ensures |r| == if |s| < TopCount then |s| else TopCount
    ensures r == s[..|r|]
  {
    if |s| <= TopCount then s else s[..TopCount]
  }

  /** From a list ranked by count, the kept swatches are ranked and no dropped one outnumbers a kept one. */
  lemma TopSwatchesAreLargest(s: seq<Swatch>)
    requires NonIncreasing(s)
    ensures NonIncreasing(TopSwatches(s))
    ensures forall i, j :: 0 <= i < |TopSwatches(s)| <= j < |s| ==> s[j].1 <= TopSwatches(s)[i].1
  {
    var top := TopSwatches(s);
    forall i, j | 0 <= i < |top| <= j < |s| ensures s[j].1 <= top[i].1 {
      assert top[i] == s[i];
    }
  }

  /**
   * getSwatch's `Math.round((count / total) * 100)`: the whole percentage
   * nearest to count/total, a half rounding up.
   */
  function Share(count: nat, total: nat): (r: nat)
    requires total >= 1
    ensures 2 * total * r <= 200 * count + total < 2 * total * (r + 1)
  {
    var x, d := 200 * count + total, 2 * total;
    DivModUnique(x, d, x / d, x % d);
    x / d
  }

  /** A count no larger than the total has a share between 0 and 100. */
  lemma ShareAtMostHundred(count: nat, total: nat)
    requires total >= 1 && count <= total
    ensures Share(count, total) <= 100
  {
    var r := Share(count, total);
    if r >= 101 {
      MulMonotone(101, r, 2 * total);
      assert false;
    }
  }

  /** A larger count never gets a smaller share. */
  lemma ShareMonotone(count: nat, count': nat, total: nat)
    requires total >= 1 && count <= count'
    ensures Share(count, total) <= Share(count', total)
  {
    DivMonotone(200 * count + total, 200 * count' + total, 2 * total);
  }

  /** The whole image is 100 percent. */
  lemma ShareOfWhole(total: nat)
    requires total >= 1
    ensures Share(total, total) == 100
  {
    DivModUnique(200 * total + total, 2 * total, 100, total);
  }

  /** One list item of the report: the colour key, its count, and its share. */
  datatype ShownSwatch = ShownSwatch(key: string, count: nat, share: nat)

  /** What showSwatches puts on screen for an image of width*height pixels. */
  function ReportRows(width: nat, height: nat, swatches: seq<Swatch>): (shown: seq<ShownSwatch>)
    requires width >= 1 && height >= 1
  {
    var top := TopSwatches(swatches);
    var total := width * height;
    MulAtLeast(width, height);
    seq(|top|, i requires 0 <= i < |top| => ShownSwatch(top[i].0, top[i].1, Share(top[i].1, total)))
  }

  /**
   * For the ranking of a table whose counts add up to at most width*height,
   * the report has min(20, entries) rows, each a table entry with its count
   * and a share within 0..100.
   */
  lemma ShownEntries(width: nat, height: nat, swatches: seq<Swatch>, m: Counts)
    requires width >= 1 && height >= 1
    requires IsRanking(swatches, m) && Total(m) <= width * height
    ensures |ReportRows(width, height, swatches)| == if |m| < TopCount then |m| else TopCount
    ensures forall i :: 0 <= i < |ReportRows(width, height, swatches)| ==>
      var e := ReportRows(width, height, swatches)[i];
      e.key in m && m[e.key] == e.count && e.share <= 100
  {
    var shown := ReportRows(width, height, swatches);
    var top := TopSwatches(swatches);
    MulAtLeast(width, height);
    RankingEntries(swatches, m);
    forall i | 0 <= i < |shown|
      ensures shown[i].key in m && m[shown[i].key] == shown[i].count && shown[i].share <= 100
    {
      assert top[i] == swatches[i];
      CountAtMostTotal(m, top[i].0);
      ShareAtMostHundred(top[i].1, width * height);
    }
  }

  /** The report's rows are ranked by count, and so by share. */
  lemma ShownRanked(width: nat, height: nat, swatches: seq<Swatch>)
    requires width >= 1 && height >= 1 && NonIncreasing(swatches)
    ensures forall i, j :: 0 <= i < j < |ReportRows(width, height, swatches)| ==>
      ReportRows(width, height, swatches)[i].count >= ReportRows(width, height, swatches)[j].count &&
      ReportRows(width, height, swatches)[i].share >= ReportRows(width, height, swatches)[j].share
  {
    var shown := ReportRows(width, height, swatches);
    var top := TopSwatches(swatches);
    MulAtLeast(width, height);
    TopSwatchesAreLargest(swatches);
    forall i, j | 0 <= i < j < |shown| ensures shown[i].count >= shown[j].count && shown[i].share >= shown[j].share {
      ShareMonotone(top[j].1, top[i].1, width * height);
    }
  }

  /** A table entry left out of the report is no more frequent than any entry in it. */
  lemma ShownAreMostFrequent(width: nat, height: nat, swatches: seq<Swatch>, m: Counts)
    requires width >= 1 && height >= 1 && IsRanking(swatches, m)
    ensures forall k :: k in m && (k, m[k]) !in TopSwatches(swatches) ==>
      forall i :: 0 <= i < |ReportRows(width, height, swatches)| ==> m[k] <= ReportRows(width, height, swatches)[i].count
  {
    var shown := ReportRows(width, height, swatches);
    var top := TopSwatches(swatches);
    RankingEntries(swatches, m);
    TopSwatchesAreLargest(swatches);
    forall k | k in m && (k, m[k]) !in top
      ensures forall i :: 0 <= i < |shown| ==> m[k] <= shown[i].count
    {
      var j :| 0 <= j < |swatches| && swatches[j] == (k, m[k]);
      assert j >= |top|;
      forall i | 0 <= i < |shown| ensures m[k] <= shown[i].count {
        assert shown[i].count == top[i].1;
      }
    }
  }
}
