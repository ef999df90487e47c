/** The DXYN drawing loop: an 8-pixel-wide sprite of N rows is XORed onto the
    frame buffer one set bit at a time, in row-major order, with destinations
    clamped (not wrapped) at the right and bottom edges.

    Positions are numbered `k = 8 * row + col`, the order in which the nested
    loops of `emulation_cycle` visit them; the sprite's bits in that order are
    its pattern. */
module Sprites {
  import opened Types
  import opened MachineState

  const SPRITE_WIDTH := 8

  /** The value of each column's bit in a sprite row, most significant first. */
  const COLUMN_WEIGHTS: seq<nat> := [0x80, 0x40, 0x20, 0x10, 0x8, 0x4, 0x2, 0x1]

  /** The sprite row has column `col` set. */
  predicate BitSet(row: u8, col: nat)
    requires col < SPRITE_WIDTH
  {
    (row / COLUMN_WEIGHTS[col]) % 2 == 1
  }

  /** The test `row & (0x80 >> col)` of the drawing loop, which is `BitSet`. */
  function MaskTest(row: u8, col: nat): (lit: bool)
    requires col < SPRITE_WIDTH
    ensures lit == BitSet(row, col)
  {
    if col < 4 then
      HighColumns(row, col);
      (row as bv8) & (0x80 >> col) != 0
    else
      LowColumns(row, col);
      (row as bv8) & (0x80 >> col) != 0
  }

  lemma HighColumns(row: u8, col: nat)
    requires col < 4
    ensures BitSet(row, col) <==> (row as bv8) & (0x80 >> col) != 0
  {
    var b := row as bv8;
    if col == 0 { assert BitSet(row, 0) == (b & 0x80 != 0); }
    else if col == 1 { assert BitSet(row, 1) == (b & 0x40 != 0); }
    else if col == 2 { assert BitSet(row, 2) == (b & 0x20 != 0); }
    else { assert BitSet(row, 3) == (b & 0x10 != 0); }
  }

  lemma LowColumns(row: u8, col: nat)
    requires 4 <= col < SPRITE_WIDTH
    ensures BitSet(row, col) <==> (row as bv8) & (0x80 >> col) != 0
  {
    var b := row as bv8;
    if col == 4 { assert BitSet(row, 4) == (b & 0x8 != 0); }
    else if col == 5 { assert BitSet(row, 5) == (b & 0x4 != 0); }
    else if col == 6 { assert BitSet(row, 6) == (b & 0x2 != 0); }
    else { assert BitSet(row, 7) == (b & 0x1 != 0); }
  }

  /** The bits of the sprite rows in the order the loops visit them. */
  function Pattern(rows: seq<u8>): (bits: seq<bool>)
    ensures |bits| == SPRITE_WIDTH * |rows|
  {
    seq(SPRITE_WIDTH * |rows|, k requires 0 <= k < SPRITE_WIDTH * |rows| =>
      BitSet(rows[k / SPRITE_WIDTH], k % SPRITE_WIDTH))
  }

  /** Position `8 * row + col` of the pattern is column `col` of row `row`. */
  lemma PatternAt(rows: seq<u8>, row: nat, col: nat)
    requires row < |rows| && col < SPRITE_WIDTH
    ensures SPRITE_WIDTH * row + col < |Pattern(rows)|
    ensures Pattern(rows)[SPRITE_WIDTH * row + col] == BitSet(rows[row], col)
  {
    var k := SPRITE_WIDTH * row + col;
    assert k / SPRITE_WIDTH == row && k % SPRITE_WIDTH == col;
  }

  /** The frame-buffer index written for column `col` of sprite row `row`:
      `dest_x`, `dest_y` clamped to 64 and 32 using the raw register values.
      On screen that is the pixel itself; a column clamped to 64 lands on the
      first pixel of the next line, and a clamped line falls past the buffer. */
  function Dest(vx: u8, vy: u8, col: nat, row: nat): (d: nat)
    ensures vx + col < SCREEN_WIDTH && vy + row < SCREEN_HEIGHT ==>
      d == (vy + row) * SCREEN_WIDTH + vx + col
    ensures vx + col >= SCREEN_WIDTH && vy + row < SCREEN_HEIGHT ==>
      d == (vy + row + 1) * SCREEN_WIDTH
    ensures vy + row >= SCREEN_HEIGHT ==> d >= PIXEL_COUNT
  {
    var dx := if vx + col > SCREEN_WIDTH then SCREEN_WIDTH else vx + col;
    var dy := if vy + row > SCREEN_HEIGHT then SCREEN_HEIGHT else vy + row;
    dy * SCREEN_WIDTH + dx
  }

  /** The frame-buffer index of position `k`. */
  function Target(vx: u8, vy: u8, k: nat): nat {
    Dest(vx, vy, k % SPRITE_WIDTH, k / SPRITE_WIDTH)
  }

  /** Every set bit of the pattern lands inside the 2048-cell frame buffer. */
  predicate Fits(bits: seq<bool>, vx: u8, vy: u8) {
    forall k :: 0 <= k < |bits| && bits[k] ==> Target(vx, vy, k) < PIXEL_COUNT
  }

  /** Position `k` draws a pixel: its bit is set and its target is inside the
      frame buffer. Under `Fits` every set bit draws one; a target outside the
      buffer (which the C code would write past the end of `gfx`) is skipped,
      so that the fold is defined for every pattern. */
  predicate Hits(bits: seq<bool>, vx: u8, vy: u8, k: nat)
    requires k < |bits|
  {
    bits[k] && Target(vx, vy, k) < PIXEL_COUNT
  }

  /** The frame buffer and the collision flag as the loop goes. */
  datatype Canvas = Canvas(pixels: seq<bv32>, collided: bool)

  /** The canvas after the loop has visited the first `k` positions. */
  function DrawUpTo(gfx: seq<bv32>, bits: seq<bool>, vx: u8, vy: u8, k: nat): (c: Canvas)
    requires |gfx| == PIXEL_COUNT && k <= |bits|
    ensures |c.pixels| == PIXEL_COUNT
  {
    if k == 0 then Canvas(gfx, false)
    else
      var c := DrawUpTo(gfx, bits, vx, vy, k - 1);
      if Hits(bits, vx, vy, k - 1) then
        var p := Target(vx, vy, k - 1);
        Canvas(c.pixels[p := c.pixels[p] ^ PIXEL_ON], c.collided || c.pixels[p] == PIXEL_ON)
      else c
  }

  /** The whole pattern drawn, starting with the collision flag clear. */
  function Draw(gfx: seq<bv32>, bits: seq<bool>, vx: u8, vy: u8): (c: Canvas)
    requires |gfx| == PIXEL_COUNT
    ensures |c.pixels| == PIXEL_COUNT
  {
    DrawUpTo(gfx, bits, vx, vy, |bits|)
  }

  /** One pass of the inner loop body: position `8 * row + col` aims at the
      clamped destination of column `col` of row `row`, which lies in the
      frame buffer when the bit is set, and visiting it toggles that cell. */
  lemma DrawStep(gfx: seq<bv32>, bits: seq<bool>, vx: u8, vy: u8, row: nat, col: nat)
    requires |gfx| == PIXEL_COUNT && Fits(bits, vx, vy)
    requires col < SPRITE_WIDTH && SPRITE_WIDTH * row + col < |bits|
    ensures Target(vx, vy, SPRITE_WIDTH * row + col) == Dest(vx, vy, col, row)
    ensures bits[SPRITE_WIDTH * row + col] ==> Dest(vx, vy, col, row) < PIXEL_COUNT
    ensures bits[SPRITE_WIDTH * row + col] ==>
      var c := DrawUpTo(gfx, bits, vx, vy, SPRITE_WIDTH * row + col);
      var d := Dest(vx, vy, col, row);
      DrawUpTo(gfx, bits, vx, vy, SPRITE_WIDTH * row + col + 1) ==
        Canvas(c.pixels[d := c.pixels[d] ^ PIXEL_ON], c.collided || c.pixels[d] == PIXEL_ON)
    ensures !bits[SPRITE_WIDTH * row + col] ==>
      DrawUpTo(gfx, bits, vx, vy, SPRITE_WIDTH * row + col + 1) == DrawUpTo(gfx, bits, vx, vy, SPRITE_WIDTH * row + col)
  {
    var k := SPRITE_WIDTH * row + col;
    assert k / SPRITE_WIDTH == row && k % SPRITE_WIDTH == col;
  }

  /** Whether cell `i` is the target of an odd number of set bits among the
      first `k` positions; it does not depend on the frame buffer. */
  function Flipped(bits: seq<bool>, vx: u8, vy: u8, k: nat, i: int): bool
    requires k <= |bits|
  {
    if k == 0 then false
    else Flipped(bits, vx, vy, k - 1, i) != (bits[k - 1] && Target(vx, vy, k - 1) == i)
  }

  /** `cell ^ 0xFFFFFFFF` when `flip`, `cell` otherwise. */
  function Toggle(cell: bv32, flip: bool): bv32 {
    if flip then cell ^ PIXEL_ON else cell
  }

  /** Each cell ends inverted exactly when an odd number of set bits hit it. */
  lemma {:induction false} DrawUpToPixels(gfx: seq<bv32>, bits: seq<bool>, vx: u8, vy: u8, k: nat, i: int)
    requires |gfx| == PIXEL_COUNT && k <= |bits|
    requires 0 <= i < PIXEL_COUNT
    ensures DrawUpTo(gfx, bits, vx, vy, k).pixels[i] == Toggle(gfx[i], Flipped(bits, vx, vy, k, i))
  {
    if k > 0 {
      var f := Flipped(bits, vx, vy, k - 1, i);
      var g := bits[k - 1] && Target(vx, vy, k - 1) == i;
      assert Flipped(bits, vx, vy, k, i) == (f != g);
      DrawUpToPixels(gfx, bits, vx, vy, k - 1, i);
      PixelStep(gfx, bits, vx, vy, k - 1, i);
      ToggleCompose(gfx[i], f, g);
    }
  }

  /** Visiting position `k` inverts cell `i` exactly when `k` is a set bit aimed at `i`. */
  lemma PixelStep(gfx: seq<bv32>, bits: seq<bool>, vx: u8, vy: u8, k: nat, i: int)
    requires |gfx| == PIXEL_COUNT && k < |bits|
    requires 0 <= i < PIXEL_COUNT
    ensures DrawUpTo(gfx, bits, vx, vy, k + 1).pixels[i] ==
      Toggle(DrawUpTo(gfx, bits, vx, vy, k).pixels[i], bits[k] && Target(vx, vy, k) == i)
  {
  }

  /** Two inversions in a row amount to one exactly when one of them happens. */
  lemma ToggleCompose(cell: bv32, f: bool, g: bool)
    ensures Toggle(Toggle(cell, f), g) == Toggle(cell, f != g)
  {
    assert (cell ^ PIXEL_ON) ^ PIXEL_ON == cell;
  }

  /** Drawing the same sprite twice at the same place restores the frame buffer. */
  lemma DrawTwiceRestores(gfx: seq<bv32>, bits: seq<bool>, vx: u8, vy: u8)
    requires |gfx| == PIXEL_COUNT
    ensures Draw(Draw(gfx, bits, vx, vy).pixels, bits, vx, vy).pixels == gfx
  {
    var once := Draw(gfx, bits, vx, vy).pixels;
    var twice := Draw(once, bits, vx, vy).pixels;
    forall i | 0 <= i < PIXEL_COUNT
      ensures twice[i] == gfx[i]
    {
      DrawUpToPixels(gfx, bits, vx, vy, |bits|, i);
      DrawUpToPixels(once, bits, vx, vy, |bits|, i);
      var f := Flipped(bits, vx, vy, |bits|, i);
      ToggleCompose(gfx[i], f, f);
    }
  }

  /** A frame buffer of lit and dark cells only stays that way. */
  lemma DrawKeepsMonochrome(gfx: seq<bv32>, bits: seq<bool>, vx: u8, vy: u8)
    requires |gfx| == PIXEL_COUNT && Monochrome(gfx)
    ensures Monochrome(Draw(gfx, bits, vx, vy).pixels)
  {
    var out := Draw(gfx, bits, vx, vy).pixels;
    forall i | 0 <= i < PIXEL_COUNT
      ensures out[i] == 0 || out[i] == PIXEL_ON
    {
      DrawUpToPixels(gfx, bits, vx, vy, |bits|, i);
      assert (0 as bv32) ^ PIXEL_ON == PIXEL_ON;
      assert PIXEL_ON ^ PIXEL_ON == 0;
    }
  }

  /** The flag ends set exactly when some drawn bit met a cell that was lit at
      the moment the loop reached it. */
  lemma {:induction false} CollisionWitness(gfx: seq<bv32>, bits: seq<bool>, vx: u8, vy: u8, k: nat)
    requires |gfx| == PIXEL_COUNT && k <= |bits|
    ensures DrawUpTo(gfx, bits, vx, vy, k).collided <==>
      exists j :: 0 <= j < k && Hits(bits, vx, vy, j) &&
        DrawUpTo(gfx, bits, vx, vy, j).pixels[Target(vx, vy, j)] == PIXEL_ON
  {
    if k > 0 {
      CollisionWitness(gfx, bits, vx, vy, k - 1);
    }
  }

  /** No two set bits of the pattern land on the same cell. */
  predicate Distinct(bits: seq<bool>, vx: u8, vy: u8) {
    forall j, j' ::
      (0 <= j < |bits| && 0 <= j' < |bits| && bits[j] && bits[j'] &&
       Target(vx, vy, j) == Target(vx, vy, j')) ==> j == j'
  }

  /** A sprite of `height` rows that fits entirely on screen, so that no
      clamping happens. */
  predicate Unclipped(height: nat, vx: u8, vy: u8) {
    vx + SPRITE_WIDTH <= SCREEN_WIDTH && vy + height <= SCREEN_HEIGHT
  }

  /** Without clamping every position has a cell of its own inside the screen. */
  lemma UnclippedIsDistinct(bits: seq<bool>, height: nat, vx: u8, vy: u8)
    requires |bits| == SPRITE_WIDTH * height && Unclipped(height, vx, vy)
    ensures Fits(bits, vx, vy) && Distinct(bits, vx, vy)
  {
    forall j | 0 <= j < |bits|
      ensures Target(vx, vy, j) == (vy + j / SPRITE_WIDTH) * SCREEN_WIDTH + vx + j % SPRITE_WIDTH
      ensures Target(vx, vy, j) < PIXEL_COUNT
    {
      assert j / SPRITE_WIDTH < height;
    }
    forall j, j' | 0 <= j < |bits| && 0 <= j' < |bits| && Target(vx, vy, j) == Target(vx, vy, j')
      ensures j == j'
    {
      var r, c, r', c' := j / SPRITE_WIDTH, j % SPRITE_WIDTH, j' / SPRITE_WIDTH, j' % SPRITE_WIDTH;
      assert (vy + r) * SCREEN_WIDTH + vx + c == (vy + r') * SCREEN_WIDTH + vx + c';
      assert r == r';
    }
  }

  /** With distinct targets, the cell of set bit `j` is flipped once the loop is past `j`. */
  lemma {:induction false} FlippedOnce(bits: seq<bool>, vx: u8, vy: u8, k: nat, j: nat)
    requires k <= |bits| && j < |bits|
    requires Distinct(bits, vx, vy) && bits[j]
    ensures Flipped(bits, vx, vy, k, Target(vx, vy, j)) <==> j < k
  {
    if k > 0 {
      FlippedOnce(bits, vx, vy, k - 1, j);
    }
  }

  /** Once set, the collision flag stays set for the rest of the sprite. */
  lemma {:induction false} CollidedStays(gfx: seq<bv32>, bits: seq<bool>, vx: u8, vy: u8, j: nat, k: nat)
    requires |gfx| == PIXEL_COUNT && j <= k <= |bits|
    requires DrawUpTo(gfx, bits, vx, vy, j).collided
    ensures DrawUpTo(gfx, bits, vx, vy, k).collided
    decreases k - j
  {
    if j < k {
      CollidedStays(gfx, bits, vx, vy, j, k - 1);
    }
  }

  /** Before the first set bit nothing has happened. */
  lemma {:induction false} NothingBeforeFirstBit(gfx: seq<bv32>, bits: seq<bool>, vx: u8, vy: u8, k: nat)
    requires |gfx| == PIXEL_COUNT && k <= |bits|
    requires forall j :: 0 <= j < k ==> !bits[j]
    ensures DrawUpTo(gfx, bits, vx, vy, k) == Canvas(gfx, false)
  {
    if k > 0 {
      NothingBeforeFirstBit(gfx, bits, vx, vy, k - 1);
    }
  }

  /** Every cell dark. */
  predicate Dark(gfx: seq<bv32>) {
    forall i :: 0 <= i < |gfx| ==> gfx[i] == 0
  }

  /** On a dark screen, a pattern whose bits have distinct targets draws
      without collision, and drawing it again collides exactly when it has a
      set bit. */
  lemma DrawTwiceOnDark(gfx: seq<bv32>, bits: seq<bool>, vx: u8, vy: u8)
    requires |gfx| == PIXEL_COUNT && Fits(bits, vx, vy) && Distinct(bits, vx, vy) && Dark(gfx)
    ensures !Draw(gfx, bits, vx, vy).collided
    ensures Draw(Draw(gfx, bits, vx, vy).pixels, bits, vx, vy).collided <==>
      exists j :: 0 <= j < |bits| && bits[j]
  {
    DarkDrawNoCollision(gfx, bits, vx, vy);
    var once := Draw(gfx, bits, vx, vy).pixels;
    if exists j :: 0 <= j < |bits| && bits[j] {
      var j0 := FirstLit(bits);
      RedrawHitsFirstBit(gfx, bits, vx, vy, j0);
    } else {
      CollisionWitness(once, bits, vx, vy, |bits|);
    }
  }

  /** First pass on a dark screen: every set bit meets a dark cell. */
  lemma DarkDrawNoCollision(gfx: seq<bv32>, bits: seq<bool>, vx: u8, vy: u8)
    requires |gfx| == PIXEL_COUNT && Distinct(bits, vx, vy) && Dark(gfx)
    ensures !Draw(gfx, bits, vx, vy).collided
  {
    CollisionWitness(gfx, bits, vx, vy, |bits|);
    forall j | 0 <= j < |bits| && Hits(bits, vx, vy, j)
      ensures DrawUpTo(gfx, bits, vx, vy, j).pixels[Target(vx, vy, j)] != PIXEL_ON
    {
      FlippedOnce(bits, vx, vy, j, j);
      DrawUpToPixels(gfx, bits, vx, vy, j, Target(vx, vy, j));
    }
  }

  /** The first set bit of a pattern that has one. */
  lemma FirstLit(bits: seq<bool>) returns (j0: nat)
    requires exists j :: 0 <= j < |bits| && bits[j]
    ensures j0 < |bits| && bits[j0]
    ensures forall j :: 0 <= j < j0 ==> !bits[j]
  {
    j0 :| 0 <= j0 < |bits| && bits[j0];
    while exists j :: 0 <= j < j0 && bits[j]
      invariant 0 <= j0 < |bits| && bits[j0]
      decreases j0
    {
      var earlier :| 0 <= earlier < j0 && bits[earlier];
      j0 := earlier;
    }
  }

  /** Second pass over the first pass's output on a dark screen: the first set
      bit meets the cell the first pass lit, so the flag ends set. */
  lemma RedrawHitsFirstBit(gfx: seq<bv32>, bits: seq<bool>, vx: u8, vy: u8, j0: nat)
    requires |gfx| == PIXEL_COUNT && Fits(bits, vx, vy) && Distinct(bits, vx, vy) && Dark(gfx)
    requires j0 < |bits| && bits[j0]
    requires forall j :: 0 <= j < j0 ==> !bits[j]
    ensures Draw(Draw(gfx, bits, vx, vy).pixels, bits, vx, vy).collided
  {
    var once := Draw(gfx, bits, vx, vy).pixels;
    NothingBeforeFirstBit(once, bits, vx, vy, j0);
    var p := Target(vx, vy, j0);
    FlippedOnce(bits, vx, vy, |bits|, j0);
    DrawUpToPixels(gfx, bits, vx, vy, |bits|, p);
    assert (0 as bv32) ^ PIXEL_ON == PIXEL_ON;
    assert DrawUpTo(once, bits, vx, vy, j0 + 1).collided;
    CollidedStays(once, bits, vx, vy, j0 + 1, |bits|);
  }
}
