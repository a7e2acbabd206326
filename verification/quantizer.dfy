/**
 * The Game Boy Camera quantizer, one pixel at a time.
 *
 * `Level` is the band chain that both copies of `gbc_filter` evaluate for the
 * cell at row `i`, column `j`: twelve descending thresholds and a final
 * `else`, each range with its own formula over the parities of `i` and `j`.
 * Beside it sits an independent reading of the same chain as a table of
 * bands (a floor, a base level and a 2x2 dithering pattern), and the lemmas
 * that relate the two and state what the filter promises.
 */
module Quantizer {

  /** An 8-bit luminance value, as held by a single-channel ('L') image. */
  type Luma = x: int | 0 <= x <= 255

  /** The four shades of the Game Boy display. */
  predicate InPalette(x: int) {
    x == 0 || x == 86 || x == 172 || x == 255
  }

  /** The value the filter writes into cell (i, j) whose old value is `v`. */
  function Level(v: Luma, i: nat, j: nat): (r: Luma)
    ensures InPalette(r)
  {
    var rowOdd, colOdd := i % 2, j % 2;
    if v >= 236 then 255
    else if v >= 216 then 255 - rowOdd * colOdd * 83
    else if v >= 196 then 255 - ((j + i + 1) % 2) * 83
    else if v >= 176 then 172 + ((i + 1) % 2) * colOdd * 83
    else if v >= 157 then 172
    else if v >= 137 then 172 - rowOdd * colOdd * 86
    else if v >= 117 then 172 - ((j + i + 1) % 2) * 86
    else if v >= 97 then 86 + ((i + 1) % 2) * colOdd * 86
    else if v >= 78 then 86
    else if v >= 58 then 86 - rowOdd * colOdd * 86
    else if v >= 38 then 86 - ((j + i + 1) % 2) * 86
    else if v >= 18 then 0 + ((i + 1) % 2) * colOdd * 86
    else 0
  }

  // ---------------------------------------------------------------------------
  // The chain read as a table of bands
  // ---------------------------------------------------------------------------

  /** How a band spreads its two shades over a 2x2 block of pixels. */
  datatype Pattern =
    | Solid     // every pixel gets the base shade
    | DropOne   // the odd-row, odd-column pixel drops one step
    | Checker   // pixels whose row and column parities agree drop one step
    | RaiseOne  // the even-row, odd-column pixel rises one step

  /** A band: the values from `floor` up to the next band's floor. */
  datatype Band = Band(floor: int, base: int, pattern: Pattern, step: int)

  /** The bands in the order the filter checks them, highest floor first. */
  const Bands: seq<Band> := [
    Band(236, 255, Solid, 0),
    Band(216, 255, DropOne, 83),
    Band(196, 255, Checker, 83),
    Band(176, 172, RaiseOne, 83),
    Band(157, 172, Solid, 0),
    Band(137, 172, DropOne, 86),
    Band(117, 172, Checker, 86),
    Band(97, 86, RaiseOne, 86),
    Band(78, 86, Solid, 0),
    Band(58, 86, DropOne, 86),
    Band(38, 86, Checker, 86),
    Band(18, 0, RaiseOne, 86),
    Band(0, 0, Solid, 0)
  ]

  /** `v` lies in band `k`: at or above its floor and below the floor of the band before it. */
  predicate InBand(v: int, k: nat)
    requires k < |Bands|
  {
    Bands[k].floor <= v && (k == 0 || v < Bands[k - 1].floor)
  }

  /** The shade a band gives to a pixel of the given row and column parity. */
  function Shade(b: Band, rowOdd: bool, colOdd: bool): int {
    match b.pattern
    case Solid => b.base
    case DropOne => if rowOdd && colOdd then b.base - b.step else b.base
    case Checker => if rowOdd == colOdd then b.base - b.step else b.base
    case RaiseOne => if !rowOdd && colOdd then b.base + b.step else b.base
  }

  /** The first band, from `k` on, whose floor `v` reaches. */
  function BandFrom(v: Luma, k: nat): (b: nat)
    requires k < |Bands|
    requires k == 0 || v < Bands[k - 1].floor
    ensures k <= b < |Bands| && InBand(v, b)
    decreases |Bands| - k
  {
    if Bands[k].floor <= v || k == |Bands| - 1 then k else BandFrom(v, k + 1)
  }

  /** The band the filter's chain selects for `v`. */
  function BandOf(v: Luma): (k: nat)
    ensures k < |Bands| && InBand(v, k)
  {
    BandFrom(v, 0)
  }

  /** The floors strictly descend and the last one is 0. */
  lemma BandsDescend()
    ensures Bands[|Bands| - 1].floor == 0
    ensures forall a, b :: 0 <= a < b < |Bands| ==> Bands[a].floor > Bands[b].floor
  {
  }

  /** Every luminance value lies in exactly one band. */
  lemma BandsPartition(v: Luma, k: nat)
    requires k < |Bands|
    ensures InBand(v, k) <==> k == BandOf(v)
  {
    BandsDescend();
  }

  // ---------------------------------------------------------------------------
  // What the filter promises of each pixel
  // ---------------------------------------------------------------------------

  /** The output depends on the coordinates only through their parities. */
  lemma {:induction false} ParityOnly(v: Luma, i: nat, j: nat)
    ensures Level(v, i, j) == Level(v, i % 2, j % 2)
  {
    assert (j + i + 1) % 2 == (j % 2 + i % 2 + 1) % 2;
    assert (i + 1) % 2 == (i % 2 + 1) % 2;
  }

  /** The chain and the band table give the same shade everywhere. */
  lemma LevelMatchesBands(v: Luma, i: nat, j: nat)
    ensures Level(v, i, j) == Shade(Bands[BandOf(v)], i % 2 == 1, j % 2 == 1)
  {
    assert (j + i + 1) % 2 == 1 <==> (i % 2 == 1) == (j % 2 == 1);
    assert (i + 1) % 2 == 1 <==> i % 2 == 0;
    // Pin down the selected band, one threshold at a time.
    if v >= 236 { BandsPartition(v, 0); }
    else if v >= 216 { BandsPartition(v, 1); }
    else if v >= 196 { BandsPartition(v, 2); }
    else if v >= 176 { BandsPartition(v, 3); }
    else if v >= 157 { BandsPartition(v, 4); }
    else if v >= 137 { BandsPartition(v, 5); }
    else if v >= 117 { BandsPartition(v, 6); }
    else if v >= 97 { BandsPartition(v, 7); }
    else if v >= 78 { BandsPartition(v, 8); }
    else if v >= 58 { BandsPartition(v, 9); }
    else if v >= 38 { BandsPartition(v, 10); }
    else if v >= 18 { BandsPartition(v, 11); }
    else { BandsPartition(v, 12); }
  }

  /** Bright values saturate to white and dark values to black, at every pixel. */
  lemma Extremes(v: Luma, i: nat, j: nat)
    ensures v >= 236 ==> Level(v, i, j) == 255
    ensures v < 18 ==> Level(v, i, j) == 0
  {
  }

  /** The two solid mid-grey bands are never dithered. */
  lemma SolidMidBands(v: Luma, i: nat, j: nat)
    ensures 157 <= v <= 175 ==> Level(v, i, j) == 172
    ensures 78 <= v <= 96 ==> Level(v, i, j) == 86
  {
  }

  /** Worked examples for the `>= 196` and `>= 137` bands. */
  lemma BandExamples()
    ensures Level(200, 0, 0) == 172 && Level(200, 0, 1) == 255
    ensures Level(150, 1, 1) == 86 && Level(150, 0, 0) == 172
  {
  }

  /** For a fixed pixel, a brighter input never gives a darker output. */
  lemma Monotone(v: Luma, w: Luma, i: nat, j: nat)
    requires v <= w
    ensures Level(v, i, j) <= Level(w, i, j)
  {
    ParityOnly(v, i, j);
    ParityOnly(w, i, j);
    var a, b := i % 2, j % 2;
    assert a == 0 || a == 1;
    assert b == 0 || b == 1;
  }
}
