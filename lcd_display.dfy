/**
 * The custom-glyph setup of src/lcd_display.rs: an 8-row bitmap is filled
 * from the bottom row upwards and, after each new row, uploaded to the
 * next of the controller's 8 glyph slots, giving bars of heights 1 to 8.
 * The controller call is recorded in a log of uploads instead of being made.
 */
module LcdDisplay {
  import opened Common

  /** All five pixels of a glyph row lit. */
  const Solid: u8 := 0x1F

  /** Glyphs are 8 rows tall; one byte per row, low five bits used. */
  const GlyphRows: nat := 8

  /** One `upload_character(slot, bits)` call: the bitmap is passed by value. */
  datatype Upload = Upload(slot: u8, bitmap: seq<u8>)

  /** A column of `n` rows whose bottom `h` rows are solid and the rest empty. */
  function Column(n: nat, h: nat): (g: seq<u8>)
    requires h <= n
    ensures |g| == n
  {
    seq(n, r requires 0 <= r < n => if r >= n - h then Solid else 0)
  }

  /** The bar glyph `h` rows high. */
  function Bar(h: nat): seq<u8>
    requires h <= GlyphRows
  {
    Column(GlyphRows, h)
  }

  /** How many rows of a glyph are lit. */
  function Height(g: seq<u8>): (h: nat)
    ensures h <= |g|
  {
    if g == [] then 0 else (if g[0] != 0 then 1 else 0) + Height(g[1..])
  }

  /** A bar-shaped glyph: every row empty or solid, and no empty row below a lit one. */
  predicate IsBar(g: seq<u8>)
  {
    (forall r :: 0 <= r < |g| ==> g[r] == 0 || g[r] == Solid) &&
    (forall r, s :: 0 <= r < s < |g| && g[r] != 0 ==> g[s] != 0)
  }

  /** Every column is bar-shaped and shows its height. */
  lemma {:induction false} ColumnHeight(n: nat, h: nat)
    requires h <= n
    ensures IsBar(Column(n, h)) && Height(Column(n, h)) == h
  {
    if n > 0 {
      var g := Column(n, h);
      var h' := if h == n then n - 1 else h;
      assert g[1..] == Column(n - 1, h');
      ColumnHeight(n - 1, h');
    }
  }

  /** Every bar-shaped glyph is the column of its own height. */
  lemma {:induction false} BarOfHeight(g: seq<u8>)
    requires IsBar(g)
    ensures g == Column(|g|, Height(g))
  {
    if g != [] {
      var n := |g|;
      BarOfHeight(g[1..]);
      var c := Column(n, Height(g));
      if g[0] != 0 {
        assert forall r :: 0 <= r < n ==> g[r] != 0;
        HeightFull(g);
      }
      assert forall r :: 1 <= r < n ==> c[r] == Column(n - 1, Height(g[1..]))[r - 1];
    }
  }

  /** A glyph with no empty row has full height. */
  lemma {:induction false} HeightFull(g: seq<u8>)
    requires forall r :: 0 <= r < |g| ==> g[r] != 0
    ensures Height(g) == |g|
  {
    if g != [] {
      HeightFull(g[1..]);
    }
  }

  /** Bar `h + 1` is bar `h` with one more row lit just above the lit ones. */
  lemma BarGrows(h: nat)
    requires h < GlyphRows
    ensures Bar(h + 1) == Bar(h)[GlyphRows - 1 - h := Solid]
  {
  }

  /**
   * `init_display`'s glyph loop: `bits` starts as eight zero rows; step `i`
   * lights row `7 - i` and uploads the bitmap to slot `i`.
   */
  method UploadGlyphs() returns (uploads: seq<Upload>, bits: seq<u8>)
    ensures |uploads| == GlyphRows
    ensures forall i :: 0 <= i < GlyphRows ==> uploads[i] == Upload(i as u8, Bar(i + 1))
    ensures forall i :: 0 <= i < GlyphRows ==>
      IsBar(uploads[i].bitmap) && Height(uploads[i].bitmap) == i + 1
    ensures bits == Bar(GlyphRows)
    ensures forall r :: 0 <= r < GlyphRows ==> bits[r] == Solid
  {
    var buf := new u8[GlyphRows](_ => 0);
    uploads := [];
    for i := 0 to GlyphRows
      invariant buf[..] == Bar(i)
      invariant |uploads| == i
      invariant forall j :: 0 <= j < i ==> uploads[j] == Upload(j as u8, Bar(j + 1))
    {
      buf[GlyphRows - 1 - i] := Solid;
      uploads := uploads + [Upload(i as u8, buf[..])];
    }
    bits := buf[..];
    forall i | 0 <= i < GlyphRows
      ensures IsBar(uploads[i].bitmap) && Height(uploads[i].bitmap) == i + 1
    {
      ColumnHeight(GlyphRows, i + 1);
    }
  }
}
