/**
 * The tile key of main.py:59-60, `int(mercantile.quadkey(mercantile.tile(lon, lat, 9)))`.
 * The Mercator projection that gives the tile is left abstract; the quadkey of a tile
 * follows the Bing Maps Tile System: one base-4 digit per zoom level, most significant
 * level first, the digit being bit k of x plus twice bit k of y. Python's int() then
 * reads that base-4 digit string as a DECIMAL number.
 */
module Quadkey {
  import opened Decimal

  /** The zoom level main.py uses. */
  const Zoom: nat := 9

  function Pow2(k: nat): (r: nat)
    ensures r >= 1
  {
    if k == 0 then 1 else 2 * Pow2(k - 1)
  }

  /** A mercantile Tile(x, y, z); x and y count tiles from the west and the north. */
  datatype Tile = Tile(x: nat, y: nat)

  /** mercantile.tile clamps both indices into 0 .. 2^zoom - 1. */
  predicate ValidTile(t: Tile, zoom: nat)
  {
    t.x < Pow2(zoom) && t.y < Pow2(zoom)
  }

  /** Bit k of v, `(v >> k) & 1`. */
  function Bit(v: nat, k: nat): (b: nat)
    ensures b < 2
  {
    if k == 0 then v % 2 else Bit(v / 2, k - 1)
  }

  /** The base-4 digit for level k: bit k of x plus twice bit k of y. */
  function QuadDigit(t: Tile, k: nat): (d: nat)
    ensures d < 4
  {
    Bit(t.x, k) + 2 * Bit(t.y, k)
  }

  /** mercantile.quadkey: for i = zoom down to 1, the digit of level i - 1. */
  function QuadkeyString(t: Tile, zoom: nat): (s: string)
    ensures |s| == zoom
  {
    seq(zoom, j requires 0 <= j < zoom => DigitChar(QuadDigit(t, zoom - 1 - j)))
  }

  /** Position j of the quadkey string holds the digit of level zoom - 1 - j. */
  lemma QuadkeyStringAt(t: Tile, zoom: nat, j: nat)
    requires j < zoom
    ensures QuadkeyString(t, zoom)[j] == DigitChar(QuadDigit(t, zoom - 1 - j))
  {
  }

  lemma QuadkeyStringDigits(t: Tile, zoom: nat)
    ensures AllDigits(QuadkeyString(t, zoom))
  {
    forall j | 0 <= j < zoom
      ensures IsDigit(QuadkeyString(t, zoom)[j])
    {
      QuadkeyStringAt(t, zoom, j);
    }
  }

  /** `int(mercantile.quadkey(tile))` at zoom 9. */
  function QuadkeyOf(t: Tile): nat
  {
    QuadkeyStringDigits(t, Zoom);
    ParseDigits(QuadkeyString(t, Zoom))
  }

  /** Every digit of a quadkey is one of '0', '1', '2', '3'. */
  lemma QuadkeyDigits(t: Tile, zoom: nat, j: nat)
    requires j < zoom
    ensures '0' <= QuadkeyString(t, zoom)[j] <= '3'
  {
    QuadkeyStringAt(t, zoom, j);
  }

  /** A number below 2^z is determined by its z low bits. */
  lemma {:induction false} BitsDetermine(a: nat, b: nat, z: nat)
    requires a < Pow2(z) && b < Pow2(z)
    requires forall k :: 0 <= k < z ==> Bit(a, k) == Bit(b, k)
    ensures a == b
  {
    if z > 0 {
      assert Bit(a, 0) == Bit(b, 0);
      forall k | 0 <= k < z - 1
        ensures Bit(a / 2, k) == Bit(b / 2, k)
      {
        assert Bit(a, k + 1) == Bit(b, k + 1);
      }
      BitsDetermine(a / 2, b / 2, z - 1);
    }
  }

  /** Distinct tiles at one zoom level have distinct quadkey strings. */
  lemma QuadkeyStringInjective(t: Tile, u: Tile, zoom: nat)
    requires ValidTile(t, zoom) && ValidTile(u, zoom)
    requires QuadkeyString(t, zoom) == QuadkeyString(u, zoom)
    ensures t == u
  {
    forall k | 0 <= k < zoom
      ensures Bit(t.x, k) == Bit(u.x, k) && Bit(t.y, k) == Bit(u.y, k)
    {
      var j := zoom - 1 - k;
      assert QuadkeyString(t, zoom)[j] == QuadkeyString(u, zoom)[j];
      QuadkeyStringAt(t, zoom, j);
      QuadkeyStringAt(u, zoom, j);
      assert DigitChar(QuadDigit(t, k)) == DigitChar(QuadDigit(u, k));
      assert QuadDigit(t, k) == QuadDigit(u, k);
    }
    BitsDetermine(t.x, u.x, zoom);
    BitsDetermine(t.y, u.y, zoom);
  }

  /**
   * int() drops the leading zeros of the quadkey string, yet distinct zoom-9 tiles still get
   * distinct integers, because every quadkey string has exactly nine digits.
   */
  lemma QuadkeyInjective(t: Tile, u: Tile)
    requires ValidTile(t, Zoom) && ValidTile(u, Zoom)
    requires QuadkeyOf(t) == QuadkeyOf(u)
    ensures t == u
  {
    QuadkeyStringDigits(t, Zoom);
    QuadkeyStringDigits(u, Zoom);
    ParseDigitsInjective(QuadkeyString(t, Zoom), QuadkeyString(u, Zoom));
    QuadkeyStringInjective(t, u, Zoom);
  }
}
