/**
 * The ColorMap object of app.ts: a frequency table that lives as long as the
 * object, the scan that fills it, and the ranked list it hands to the UI.
 */
module PixelCounter {
  import opened Quantise
  import opened Table
  import opened Scan
  import opened Arithmetic

  /** The calls ColorMap makes on its ColorMapUI, in the order it makes them. */
  datatype UiCall =
    | Start
    | Progress(percent: nat)
    | ShowSwatches(width: nat, height: nat, swatches: seq<Swatch>)
    | Error(message: string)

  /** Why getImage rejects. */
  datatype AcquireError = ImageNotFound | ContextNotCreated

  /** The text getImage rejects with. */
  function Message(e: AcquireError): string
  {
    match e
    case ImageNotFound => "Image not found."
    case ContextNotCreated => "Context not created."
  }

  /** What getImage settles to: the drawn image, or the reason it could not be had. */
  datatype Acquisition = Acquired(image: Image) | Failed(error: AcquireError)

  /** One progress call per row, carrying the percentages of ProgressValues. */
  function ProgressCalls(height: nat): (calls: seq<UiCall>)
    requires height >= 1
  {
    seq(height, i requires 0 <= i < height => Progress(ProgressValues(height)[i]))
  }

  /**
   * The UI calls of one scan of img that left `table` behind: one progress
   * report per completed row, then the ranked entries of the table.
   */
  predicate ReportsScan(calls: seq<UiCall>, img: Image, table: Counts)
    requires img.height >= 1
  {
    |calls| == img.height + 1 &&
    calls[..img.height] == ProgressCalls(img.height) &&
    calls[img.height].ShowSwatches? &&
    calls[img.height].width == img.width && calls[img.height].height == img.height &&
    IsRanking(calls[img.height].swatches, table)
  }

  class ColorMap {
    /** The colour counts, keyed by getKey's text.  Never reset after construction. */
    var dict: Counts

    constructor()
      ensures dict == map[]
    {
      dict := map[];
    }

    /** addPixel: one more occurrence of the pixel's quantised colour. */
    method AddPixel(pixel: Pixel)
      modifies this
      ensures dict == Increment(old(dict), GetKey(pixel))
    {
      var key := GetKey(pixel);
      if key !in dict {
        dict := dict[key := 0];
      }
      dict := dict[key := dict[key] + 1];
    }

    /** getOrderedSwatches: every entry of the table once, by count, most frequent first. */
    method GetOrderedSwatches() returns (items: seq<Swatch>)
      ensures IsRanking(items, dict)
    {
      items := [];
      var keys := dict.Keys;
      ItemsByKey(dict);
      while keys != {}
        invariant keys <= dict.Keys
        invariant multiset(items) + multiset(set k | k in keys :: (k, dict[k])) == multiset(dict.Items)
        decreases |keys|
      {
        var key :| key in keys;
        var rest := keys - {key};
        assert (set k | k in keys :: (k, dict[k])) == (set k | k in rest :: (k, dict[k])) + {(key, dict[key])};
        assert (key, dict[key]) !in (set k | k in rest :: (k, dict[k]));
        items := items + [(key, dict[key])];
        keys := rest;
      }
      items := SortByCount(items);
    }

    /**
     * processPixel(image, 0, 0) followed to its end: the cursor moves one
     * column before each sample, wraps to the next row (reporting progress)
     * past the last column, and stops with the ranked table once it is past
     * the last row.
     */
    method ProcessPixel(image: Image) returns (calls: seq<UiCall>)
      requires WellFormed(image) && image.width >= 1 && image.height >= 1
      modifies this
      ensures dict == Tally(old(dict), image, Visits(image.width, image.height))
      ensures ReportsScan(calls, image, dict)
    {
      var width, height := image.width, image.height;
      var rowNumber, columnNumber := 0, 0;
      calls := [];
      while true
        invariant rowNumber < height && columnNumber < width
        invariant dict == Tally(old(dict), image, CursorPath(width, rowNumber, columnNumber))
        invariant calls == ProgressCalls(height)[..rowNumber]
        decreases height - rowNumber, width - columnNumber
      {
        ghost var row0, column0 := rowNumber, columnNumber;
        columnNumber := columnNumber + 1;
        if columnNumber >= width {
          columnNumber := 0;
          rowNumber := rowNumber + 1;
          ProgressStep(height, rowNumber);
          calls := calls + [Progress(Percent(rowNumber, height))];
          if rowNumber >= height {
            assert row0 == height - 1 && column0 == width - 1;
            var swatches := GetOrderedSwatches();
            ReportsScanIntro(calls, swatches, image, dict);
            calls := calls + [ShowSwatches(width, height, swatches)];
            return;
          }
        }
        ScanStep(old(dict), image, row0, column0, rowNumber, columnNumber);
        AddPixel(image.pixels[rowNumber][columnNumber]);
      }
    }

    /**
     * processImage: on a failed acquisition the UI gets the error and the
     * table is untouched; otherwise the UI is started and the image scanned
     * into the table as it stands.
     */
    method ProcessImage(acquisition: Acquisition) returns (calls: seq<UiCall>)
      requires acquisition.Acquired? ==>
        WellFormed(acquisition.image) && acquisition.image.width >= 1 && acquisition.image.height >= 1
      modifies this
      ensures acquisition.Failed? ==> calls == [Error(Message(acquisition.error))] && dict == old(dict)
      ensures acquisition.Acquired? ==>
        var img := acquisition.image;
        dict == Tally(old(dict), img, Visits(img.width, img.height)) &&
        |calls| >= 1 && calls[0] == Start && ReportsScan(calls[1..], img, dict)
    {
      match acquisition
      case Failed(error) =>
        calls := [Error(Message(error))];
      case Acquired(image) =>
        var scanCalls := ProcessPixel(image);
        calls := [Start] + scanCalls;
    }
  }

  /** The progress calls of every row followed by a ranking of the table report the scan. */
  lemma ReportsScanIntro(progress: seq<UiCall>, swatches: seq<Swatch>, img: Image, table: Counts)
    requires img.height >= 1
    requires progress == ProgressCalls(img.height)[..img.height]
    requires IsRanking(swatches, table)
    ensures ReportsScan(progress + [ShowSwatches(img.width, img.height, swatches)], img, table)
  {
    var calls := progress + [ShowSwatches(img.width, img.height, swatches)];
    assert calls[..img.height] == progress;
  }

  /** Completing row `rows` adds its percentage to the progress calls. */
  lemma ProgressStep(height: nat, rows: nat)
    requires 1 <= rows <= height
    ensures ProgressCalls(height)[..rows] == ProgressCalls(height)[..rows - 1] + [Progress(Percent(rows, height))]
  {
    var values := ProgressValues(height);
    assert values[rows - 1] == Percent(rows, height);
    assert ProgressCalls(height)[rows - 1] == Progress(values[rows - 1]);
  }
}
