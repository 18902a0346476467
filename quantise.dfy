/**
 * Colour quantisation and the string key of a quantised pixel
 * (ColorMap.round and ColorMap.getKey in app.ts).
 */
module Quantise {

  /** One 8-bit channel of a canvas pixel (an entry of a Uint8ClampedArray). */
  type Channel = x: int | 0 <= x <= 255

  /** The four channels that getImageData returns for a 1x1 region. */
  datatype Pixel = Pixel(r: Channel, g: Channel, b: Channel, a: Channel)

  /** Width of one quantisation bucket: 0..255 falls into six buckets. */
  const Bucket: int := 51

  /**
   * ColorMap.round: the multiple of 51 nearest to the channel.  The source
   * computes Math.round(n / 51) * 51; for an integer n the quotient n / 51 is
   * never exactly half-way between two integers, so rounding half up and the
   * integer form below agree on every channel.
   */
  function Round(n: Channel): (q: Channel)
    ensures q in {0, 51, 102, 153, 204, 255}
    ensures q % Bucket == 0
    ensures n - 25 <= q <= n + 25
  {
    ((n + 25) / Bucket) * Bucket
  }

  /** The nearest multiple of 51 is the only multiple of 51 within 25 of the channel. */
  lemma RoundIsUnique(n: Channel, m: int)
    requires m % Bucket == 0 && n - 25 <= m <= n + 25
    ensures m == Round(n)
  {
    var q := Round(n);
    var d := q - m;
    assert -50 <= d <= 50;
    assert d % Bucket == 0 by {
      assert q == (q / Bucket) * Bucket && m == (m / Bucket) * Bucket;
      assert d == (q / Bucket - m / Bucket) * Bucket;
    }
  }

  /** Quantising an already quantised channel changes nothing. */
  lemma RoundIdempotent(n: Channel)
    ensures Round(Round(n)) == Round(n)
  {
    RoundIsUnique(Round(n), Round(n));
  }

  /** Quantisation preserves the order of channels. */
  lemma RoundMonotone(n: Channel, m: Channel)
    requires n <= m
    ensures Round(n) <= Round(m)
  {
    assert (n + 25) / Bucket <= (m + 25) / Bucket;
  }

  /** The four channels of a pixel, each quantised (the `values` array of getKey). */
  function Quantised(p: Pixel): Pixel
  {
    Pixel(Round(p.r), Round(p.g), Round(p.b), Round(p.a))
  }

  predicate IsDigit(c: char)
  {
    '0' <= c <= '9'
  }

  function DigitChar(d: int): (c: char)
    requires 0 <= d < 10
    ensures IsDigit(c)
  {
    '0' + (d as char)
  }

  /**
   * The decimal text that a JavaScript template literal gives an integer in
   * 0 .. 10^21 - 1, and so every channel value: digits only, with no leading zero.
   */
  function Decimal(n: nat): (s: string)
    ensures |s| >= 1
    ensures forall i :: 0 <= i < |s| ==> IsDigit(s[i])
    ensures s[0] == '0' <==> n == 0
    decreases n
  {
    if n < 10 then [DigitChar(n)] else Decimal(n / 10) + [DigitChar(n % 10)]
  }

  function DigitValue(c: char): (d: nat)
    requires IsDigit(c)
    ensures d < 10
  {
    c as int - '0' as int
  }

  /** The number a string of decimal digits denotes. */
  function DecimalValue(s: string): nat
    requires forall i :: 0 <= i < |s| ==> IsDigit(s[i])
    decreases |s|
  {
    if s == [] then 0
    else DecimalValue(s[..|s| - 1]) * 10 + DigitValue(s[|s| - 1])
  }

  lemma {:induction false} DecimalRoundTrip(n: nat)
    ensures DecimalValue(Decimal(n)) == n
    decreases n
  {
    var s := Decimal(n);
    if n >= 10 {
      assert s[..|s| - 1] == Decimal(n / 10);
      DecimalRoundTrip(n / 10);
    }
  }

  /** Distinct numbers print differently. */
  lemma DecimalInjective(n: nat, m: nat)
    requires Decimal(n) == Decimal(m)
    ensures n == m
  {
    DecimalRoundTrip(n);
    DecimalRoundTrip(m);
  }

  /** The texts of the bucket values that TwoByTwoKeys and TwoByTwoScan use. */
  lemma DecimalExamples()
    ensures Decimal(0) == "0" && Decimal(51) == "51" && Decimal(255) == "255"
  {
    assert Decimal(5) == "5" && Decimal(25) == "25";
  }

  /** The comma after a shorter comma-free part falls inside a longer comma-free one. */
  lemma CommaAt(a: string, b: string, c: string, d: string)
    requires ',' !in c && |a| < |c|
    ensures (a + "," + b)[|a|] == ','
    ensures (c + "," + d)[|a|] != ','
  {
    assert (c + "," + d)[|a|] == c[|a|];
  }

  /**
   * A string joined with commas from comma-free parts splits back into the
   * same first part and the same remainder.
   */
  lemma SplitAtComma(a: string, b: string, c: string, d: string)
    requires ',' !in a && ',' !in c
    requires a + "," + b == c + "," + d
    ensures a == c && b == d
  {
    var s := a + "," + b;
    if |a| < |c| {
      CommaAt(a, b, c, d);
      assert false;
    } else if |c| < |a| {
      CommaAt(c, d, a, b);
      assert false;
    }
    assert a == s[..|a|] == c;
    assert b == s[|a| + 1..] == d;
  }

  lemma DecimalHasNoComma(n: nat)
    ensures ',' !in Decimal(n)
  {
  }

  /** The comma-joined text of four quantised channels. */
  function JoinKey(q: Pixel): string
  {
    Decimal(q.r) + "," + Decimal(q.g) + "," + Decimal(q.b) + "," + Decimal(q.a)
  }

  /** ColorMap.getKey: the table key of a sampled pixel. */
  function GetKey(p: Pixel): string
  {
    JoinKey(Quantised(p))
  }

  /** Four comma-free parts joined with commas can be recovered from the joined text. */
  lemma {:induction false} SplitFour(a: string, b: string, c: string, d: string,
                                     a': string, b': string, c': string, d': string)
    requires ',' !in a && ',' !in b && ',' !in c
    requires ',' !in a' && ',' !in b' && ',' !in c'
    requires a + "," + b + "," + c + "," + d == a' + "," + b' + "," + c' + "," + d'
    ensures a == a' && b == b' && c == c' && d == d'
  {
    assert a + "," + b + "," + c + "," + d == a + "," + (b + "," + (c + "," + d));
    assert a' + "," + b' + "," + c' + "," + d' == a' + "," + (b' + "," + (c' + "," + d'));
    SplitAtComma(a, b + "," + (c + "," + d), a', b' + "," + (c' + "," + d'));
    SplitAtComma(b, c + "," + d, b', c' + "," + d');
    SplitAtComma(c, d, c', d');
  }

  /** Joining is injective: the key determines the four channels it was built from. */
  lemma JoinKeyInjective(q: Pixel, q': Pixel)
    requires JoinKey(q) == JoinKey(q')
    ensures q == q'
  {
    DecimalHasNoComma(q.r); DecimalHasNoComma(q.g); DecimalHasNoComma(q.b);
    DecimalHasNoComma(q'.r); DecimalHasNoComma(q'.g); DecimalHasNoComma(q'.b);
    SplitFour(Decimal(q.r), Decimal(q.g), Decimal(q.b), Decimal(q.a),
              Decimal(q'.r), Decimal(q'.g), Decimal(q'.b), Decimal(q'.a));
    DecimalInjective(q.r, q'.r);
    DecimalInjective(q.g, q'.g);
    DecimalInjective(q.b, q'.b);
    DecimalInjective(q.a, q'.a);
  }

  /**
   * Two pixels share a table key exactly when their four channels quantise
   * equally: the key depends on nothing else, and distinct quantised colours
   * never collide.
   */
  lemma GetKeyIffSameQuantised(p: Pixel, p': Pixel)
    ensures GetKey(p) == GetKey(p') <==> Quantised(p) == Quantised(p')
  {
    if GetKey(p) == GetKey(p') {
      JoinKeyInjective(Quantised(p), Quantised(p'));
    }
  }
}
