/**
 * What one scan of ColorMap.processPixel does, as values: the image it reads,
 * the coordinates it samples in order, the table it leaves behind and the
 * progress percentages it reports (app.ts, processPixel).
 */
module Scan {
  import opened Quantise
  import opened Table
  import opened Arithmetic

  /**
   * The drawn canvas: `pixels[row][column]` is what
   * getImageData(column, row, 1, 1) yields.
   */
  datatype Image = Image(width: nat, height: nat, pixels: seq<seq<Pixel>>)

  predicate WellFormed(img: Image)
  {
    |img.pixels| == img.height &&
    forall row :: 0 <= row < |img.pixels| ==> |img.pixels[row]| == img.width
  }

  /** A grid position. */
  datatype Coord = Coord(row: nat, column: nat)

  predicate InImage(img: Image, c: Coord)
  {
    c.row < img.height && c.column < img.width
  }

  /**
   * getImageData(column, row, 1, 1): the pixel at c; a canvas reads as
   * transparent black outside its bounds (a scan never goes there, see
   * VisitsInImage).
   */
  function PixelAt(img: Image, c: Coord): Pixel
    requires WellFormed(img)
  {
    if InImage(img, c) then img.pixels[c.row][c.column] else Pixel(0, 0, 0, 0)
  }

  /** The position a row-major cursor reaches after `index` steps from (0,0). */
  function CoordOf(width: nat, index: nat): (c: Coord)
    requires width >= 1
    ensures c.row * width + c.column == index && c.column < width
  {
    Coord(index / width, index % width)
  }

  /**
   * The coordinates processPixel samples, in order, while its cursor walks
   * from (0,0) to (row, column): the cursor moves one column before each
   * sample and wraps to column 0 of the next row past the last column, so
   * the start (0,0) itself is never sampled.
   */
  function CursorPath(width: nat, row: nat, column: nat): seq<Coord>
    requires column < width
    decreases row, column
  {
    if column > 0 then CursorPath(width, row, column - 1) + [Coord(row, column)]
    else if row > 0 then CursorPath(width, row - 1, width - 1) + [Coord(row, 0)]
    else []
  }

  /** Moving the cursor on by one position extends its path by that position. */
  lemma CursorStep(width: nat, row0: nat, column0: nat, row: nat, column: nat)
    requires column0 < width
    requires if column0 + 1 < width then row == row0 && column == column0 + 1 else row == row0 + 1 && column == 0
    ensures column < width
    ensures CursorPath(width, row, column) == CursorPath(width, row0, column0) + [Coord(row, column)]
  {
  }

  /** A full scan walks the cursor to the last column of the last row. */
  function Visits(width: nat, height: nat): seq<Coord>
    requires width >= 1 && height >= 1
  {
    CursorPath(width, height - 1, width - 1)
  }

  /** The cursor's path to (row, column) holds the positions after 1, 2, ... steps. */
  lemma {:induction false} CursorPathAt(width: nat, row: nat, column: nat)
    requires column < width
    ensures |CursorPath(width, row, column)| == row * width + column
    ensures forall i :: 0 <= i < |CursorPath(width, row, column)| ==>
      CursorPath(width, row, column)[i] == CoordOf(width, i + 1)
    decreases row, column
  {
    var path := CursorPath(width, row, column);
    if column > 0 {
      CursorPathAt(width, row, column - 1);
      CoordOfIs(width, row * width + column, row, column);
    } else if row > 0 {
      CursorPathAt(width, row - 1, width - 1);
      MulDistributes(row, row - 1, width);
      CoordOfIs(width, row * width, row, 0);
    }
  }

  /** The length and entries of the visit order. */
  lemma VisitsAt(width: nat, height: nat)
    requires width >= 1 && height >= 1
    ensures |Visits(width, height)| == width * height - 1
    ensures forall i :: 0 <= i < |Visits(width, height)| ==> Visits(width, height)[i] == CoordOf(width, i + 1)
  {
    CursorPathAt(width, height - 1, width - 1);
    MulDistributes(height, height - 1, width);
  }

  /** The sample after `index` steps is at the row and column that make up `index`. */
  lemma CoordOfIs(width: nat, index: nat, row: nat, column: nat)
    requires width >= 1 && column < width && index == row * width + column
    ensures CoordOf(width, index) == Coord(row, column)
  {
    DivModUnique(index, width, row, column);
  }

  /** Row-major order on grid positions, column varying fastest. */
  predicate Before(c: Coord, d: Coord)
  {
    c.row < d.row || (c.row == d.row && c.column < d.column)
  }

  /** Comparing row-major indices compares positions in row-major order. */
  lemma BeforeByIndex(width: nat, c: Coord, d: Coord)
    requires width >= 1 && c.column < width && d.column < width
    requires c.row * width + c.column < d.row * width + d.column
    ensures Before(c, d)
  {
    if d.row < c.row {
      MulDistributes(c.row, d.row, width);
      MulAtLeast(c.row - d.row, width);
      assert false;
    }
  }

  /** A scan samples width*height - 1 pixels, all inside the image. */
  lemma VisitsInImage(width: nat, height: nat)
    requires width >= 1 && height >= 1
    ensures |Visits(width, height)| == width * height - 1
    ensures forall i :: 0 <= i < |Visits(width, height)| ==>
      Visits(width, height)[i].row < height && Visits(width, height)[i].column < width
  {
    var v := Visits(width, height);
    VisitsAt(width, height);
    forall i | 0 <= i < |v| ensures v[i].row < height {
      var c := v[i];
      assert c.row * width + c.column == i + 1 < width * height;
      if c.row >= height {
        MulMonotone(height, c.row, width);
        assert false;
      }
    }
  }

  /** Samples come strictly in row-major order, column varying fastest, so none twice. */
  lemma VisitsRowMajor(width: nat, height: nat)
    requires width >= 1 && height >= 1
    ensures forall i, j :: 0 <= i < j < |Visits(width, height)| ==>
      Before(Visits(width, height)[i], Visits(width, height)[j])
  {
    var v := Visits(width, height);
    VisitsAt(width, height);
    forall i, j | 0 <= i < j < |v| ensures Before(v[i], v[j]) {
      BeforeByIndex(width, v[i], v[j]);
    }
  }

  /** The cursor starts at (0,0) and moves before sampling, so (0,0) is never sampled. */
  lemma VisitsSkipOrigin(width: nat, height: nat)
    requires width >= 1 && height >= 1
    ensures Coord(0, 0) !in Visits(width, height)
  {
    VisitsAt(width, height);
  }

  /** Every position other than (0,0) is sampled. */
  lemma VisitsCoverRest(width: nat, height: nat, row: nat, column: nat)
    requires width >= 1 && height >= 1
    requires row < height && column < width && (row, column) != (0, 0)
    ensures Coord(row, column) in Visits(width, height)
  {
    var v := Visits(width, height);
    VisitsAt(width, height);
    var index := row * width + column;
    MulMonotone(row, height - 1, width);
    MulDistributes(height, 1, width);
    assert index <= width * height - 1;
    if row > 0 {
      MulAtLeast(row, width);
    }
    assert index >= 1;
    CoordOfIs(width, index, row, column);
    assert v[index - 1] == Coord(row, column);
  }

  /** The first sample: (0,1), or (1,0) when the image is one column wide. */
  lemma FirstVisit(width: nat, height: nat)
    requires width >= 1 && height >= 1 && width * height >= 2
    ensures Visits(width, height)[0] == if width >= 2 then Coord(0, 1) else Coord(1, 0)
  {
    VisitsAt(width, height);
    if width >= 2 {
      CoordOfIs(width, 1, 0, 1);
    } else {
      CoordOfIs(width, 1, 1, 0);
    }
  }

  /** The table after sampling the coordinates `cs` in order, starting from m. */
  function Tally(m: Counts, img: Image, cs: seq<Coord>): Counts
    requires WellFormed(img)
    decreases |cs|
  {
    if cs == [] then m
    else Increment(Tally(m, img, cs[..|cs| - 1]), GetKey(PixelAt(img, cs[|cs| - 1])))
  }

  /** Sampling one more coordinate increments that coordinate's colour. */
  lemma TallyAppend(m: Counts, img: Image, cs: seq<Coord>, c: Coord)
    requires WellFormed(img)
    ensures Tally(m, img, cs + [c]) == Increment(Tally(m, img, cs), GetKey(PixelAt(img, c)))
  {
    assert (cs + [c])[..|cs|] == cs;
  }

  /**
   * One pass of processPixel that samples: the cursor moves on from
   * (row0, column0) to (row, column) and the table gains that pixel's key.
   */
  lemma ScanStep(m: Counts, img: Image, row0: nat, column0: nat, row: nat, column: nat)
    requires WellFormed(img) && column0 < img.width
    requires if column0 + 1 < img.width then row == row0 && column == column0 + 1 else row == row0 + 1 && column == 0
    requires row < img.height
    ensures column < img.width
    ensures Tally(m, img, CursorPath(img.width, row, column))
         == Increment(Tally(m, img, CursorPath(img.width, row0, column0)), GetKey(img.pixels[row][column]))
  {
    CursorStep(img.width, row0, column0, row, column);
    TallyAppend(m, img, CursorPath(img.width, row0, column0), Coord(row, column));
  }

  /** Each sample adds one to the total of the table. */
  lemma {:induction false} TallyTotal(m: Counts, img: Image, cs: seq<Coord>)
    requires WellFormed(img)
    ensures Total(Tally(m, img, cs)) == Total(m) + |cs|
    decreases |cs|
  {
    if cs != [] {
      TallyTotal(m, img, cs[..|cs| - 1]);
      TotalIncrement(Tally(m, img, cs[..|cs| - 1]), GetKey(PixelAt(img, cs[|cs| - 1])));
    }
  }

  /** Sampling pixels that all quantise to one colour raises only that colour's count. */
  lemma {:induction false} TallySameKey(m: Counts, img: Image, cs: seq<Coord>, k: string)
    requires WellFormed(img)
    requires forall i :: 0 <= i < |cs| ==> GetKey(PixelAt(img, cs[i])) == k
    ensures Tally(m, img, cs).Keys == if cs == [] then m.Keys else m.Keys + {k}
    ensures forall k' :: Count(Tally(m, img, cs), k') == Count(m, k') + (if k' == k then |cs| else 0)
    decreases |cs|
  {
    if cs != [] {
      TallySameKey(m, img, cs[..|cs| - 1], k);
    }
  }

  /** A whole scan adds width*height - 1 to the total of the table. */
  lemma ScanTotal(m: Counts, img: Image)
    requires WellFormed(img) && img.width >= 1 && img.height >= 1
    ensures Total(Tally(m, img, Visits(img.width, img.height))) == Total(m) + img.width * img.height - 1
  {
    VisitsAt(img.width, img.height);
    TallyTotal(m, img, Visits(img.width, img.height));
  }

  /**
   * Scanning an image of one quantised colour into an empty table gives that
   * colour alone, counted width*height - 1 times.
   */
  lemma ScanUniform(img: Image, k: string)
    requires WellFormed(img) && img.width >= 1 && img.height >= 1 && img.width * img.height >= 2
    requires forall row, column :: 0 <= row < img.height && 0 <= column < img.width ==>
      GetKey(img.pixels[row][column]) == k
    ensures Tally(map[], img, Visits(img.width, img.height)) == map[k := img.width * img.height - 1]
  {
    var v := Visits(img.width, img.height);
    VisitsAt(img.width, img.height);
    VisitsInImage(img.width, img.height);
    forall i | 0 <= i < |v| ensures GetKey(PixelAt(img, v[i])) == k {
      assert InImage(img, v[i]);
    }
    TallySameKey(map[], img, v, k);
    var t := Tally(map[], img, v);
    assert t.Keys == {k};
    assert Count(t, k) == |v|;
  }

  /** The 2x2 image of the example below: black, grey in row 0; black, white in row 1. */
  function TwoByTwo(): Image
  {
    Image(2, 2, [[Pixel(0, 0, 0, 255), Pixel(51, 51, 51, 255)],
                 [Pixel(0, 0, 0, 255), Pixel(255, 255, 255, 255)]])
  }

  lemma TwoByTwoVisits()
    ensures Visits(2, 2) == [Coord(0, 1), Coord(1, 0), Coord(1, 1)]
  {
    assert CursorPath(2, 0, 1) == [Coord(0, 1)];
    assert CursorPath(2, 1, 0) == [Coord(0, 1), Coord(1, 0)];
  }

  lemma TwoByTwoKeys()
    ensures GetKey(PixelAt(TwoByTwo(), Coord(0, 1))) == "51,51,51,255"
    ensures GetKey(PixelAt(TwoByTwo(), Coord(1, 0))) == "0,0,0,255"
    ensures GetKey(PixelAt(TwoByTwo(), Coord(1, 1))) == "255,255,255,255"
  {
    DecimalExamples();
    assert Round(0) == 0 && Round(51) == 51 && Round(255) == 255;
    assert Quantised(Pixel(51, 51, 51, 255)) == Pixel(51, 51, 51, 255);
    assert Quantised(Pixel(0, 0, 0, 255)) == Pixel(0, 0, 0, 255);
    assert Quantised(Pixel(255, 255, 255, 255)) == Pixel(255, 255, 255, 255);
  }

  /**
   * Scanning the 2x2 image skips the black pixel at (0,0), so each of the
   * three colours is counted once.
   */
  lemma TwoByTwoScan()
    ensures Tally(map[], TwoByTwo(), Visits(2, 2))
      == map["51,51,51,255" := 1, "0,0,0,255" := 1, "255,255,255,255" := 1]
  {
    var img := TwoByTwo();
    TwoByTwoVisits();
    TwoByTwoKeys();
    var grey, black, white := "51,51,51,255", "0,0,0,255", "255,255,255,255";
    assert |black| == 9 && |grey| == 12 && |white| == 15;
    var t1 := Tally(map[], img, [Coord(0, 1)]);
    var t2 := Tally(map[], img, [Coord(0, 1), Coord(1, 0)]);
    TallyAppend(map[], img, [], Coord(0, 1));
    assert t1 == map[grey := 1];
    TallyAppend(map[], img, [Coord(0, 1)], Coord(1, 0));
    assert t2 == t1[black := 1];
    TallyAppend(map[], img, [Coord(0, 1), Coord(1, 0)], Coord(1, 1));
    assert Tally(map[], img, Visits(2, 2)) == t2[white := 1];
  }

  /** The progress percentage after `rows` completed rows: floor(100 * rows / height). */
  function Percent(rows: nat, height: nat): nat
    requires height >= 1
  {
    rows * 100 / height
  }

  /** The values processPixel reports, one per completed row. */
  function ProgressValues(height: nat): seq<nat>
    requires height >= 1
  {
    seq(height, i requires 0 <= i < height => Percent(i + 1, height))
  }

  /** Progress reports never decrease. */
  lemma ProgressMonotone(height: nat)
    requires height >= 1
    ensures forall i, j :: 0 <= i <= j < height ==> ProgressValues(height)[i] <= ProgressValues(height)[j]
  {
    forall i, j | 0 <= i <= j < height
      ensures ProgressValues(height)[i] <= ProgressValues(height)[j]
    {
      DivMonotone((i + 1) * 100, (j + 1) * 100, height);
    }
  }

  /** One report per row; the last one is 100 and none exceeds it. */
  lemma ProgressEndsAtHundred(height: nat)
    requires height >= 1
    ensures |ProgressValues(height)| == height
    ensures ProgressValues(height)[height - 1] == 100
    ensures forall i :: 0 <= i < height ==> ProgressValues(height)[i] <= 100
  {
    DivModUnique(height * 100, height, 100, 0);
    forall i | 0 <= i < height ensures ProgressValues(height)[i] <= 100 {
      DivMonotone((i + 1) * 100, height * 100, height);
    }
  }
}
