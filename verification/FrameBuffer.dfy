/** The linear framebuffer and the pixel operations of the text terminal
    (system/kernel/Terminal.c). */
module FrameBuffer {
  import opened Arithmetic

  type u8 = x: nat | x < 256

  datatype Colour = Colour(Red: u8, Green: u8, Blue: u8)

  const BLACK: Colour := Colour(0, 0, 0)

  datatype Pixel = Pixel(Blue: u8, Green: u8, Red: u8, Reserved: u8) {
    function Rgb(): Colour { Colour(Red, Green, Blue) }
  }

  const FONT_PX_X: nat := 8
  const FONT_PX_Y: nat := 16

  /** A font gives a byte for each character code and pixel row. */
  type Font = (char, nat) -> bv8

  function Enabled(font: Font, c: char, x: nat, y: nat): (b: bool)
    requires x < FONT_PX_X
    ensures b <==> font(c, y) as int / [128, 64, 32, 16, 8, 4, 2, 1][x] % 2 == 1
  {
    RowBitIsDigit(font(c, y), x);
    RowBit(font(c, y), x)
  }

  /** The leftmost pixel is the highest bit. */
  function RowBit(RowData: bv8, x: nat): bool
    requires x < FONT_PX_X
  {
    RowData & ((1 as bv8) << (FONT_PX_X - x - 1)) != 0
  }

  /** Read from left to right, the eight pixels of a row are the binary digits of its byte. */
  lemma RowBitIsDigit(r: bv8, x: nat)
    requires x < 8
    ensures RowBit(r, x) <==> r as int / [128, 64, 32, 16, 8, 4, 2, 1][x] % 2 == 1
  {
    if x < 2 {
      Digits01(r);
    } else if x < 4 {
      Digits23(r);
    } else if x < 6 {
      Digits45(r);
    } else {
      Digits67(r);
    }
  }

  lemma Digits01(r: bv8)
    ensures RowBit(r, 0) <==> r as int / 128 % 2 == 1
    ensures RowBit(r, 1) <==> r as int / 64 % 2 == 1
  {
    LowBitIsOdd(r / 128);
    LowBitIsOdd(r / 64);
  }

  lemma Digits23(r: bv8)
    ensures RowBit(r, 2) <==> r as int / 32 % 2 == 1
    ensures RowBit(r, 3) <==> r as int / 16 % 2 == 1
  {
    LowBitIsOdd(r / 32);
    LowBitIsOdd(r / 16);
  }

  lemma Digits45(r: bv8)
    ensures RowBit(r, 4) <==> r as int / 8 % 2 == 1
    ensures RowBit(r, 5) <==> r as int / 4 % 2 == 1
  {
    LowBitIsOdd(r / 8);
    LowBitIsOdd(r / 4);
  }

  lemma Digits67(r: bv8)
    ensures RowBit(r, 6) <==> r as int / 2 % 2 == 1
    ensures RowBit(r, 7) <==> r as int % 2 == 1
  {
    LowBitIsOdd(r / 2);
    LowBitIsOdd(r);
  }

  lemma LowBitIsOdd(b: bv8)
    ensures b & 1 != 0 <==> b as int % 2 == 1
  {
    assert b & 1 == b % 2;
  }

  lemma IndexInjective(w: nat, x: nat, y: nat, x': nat, y': nat)
    requires x < w && x' < w && y * w + x == y' * w + x'
    ensures x == x' && y == y'
  {
    SmallMultiple(y - y', w, x' - x);
  }

  lemma IndexBound(w: nat, h: nat, x: nat, y: nat)
    requires x < w && y < h
    ensures 0 <= y * w + x < w * h
  {
    MulMonotone(y + 1, h, w);
  }

  class Screen {
    const Base: array<Pixel>
    const Width: nat
    const Height: nat

    ghost predicate Valid() {
      Base.Length == Width * Height
    }

    constructor (width: nat, height: nat)
      ensures Valid() && fresh(Base) && Width == width && Height == height
    {
      Width, Height := width, height;
      Base := new Pixel[width * height](_ => Pixel(0, 0, 0, 0));
    }

    ghost predicate In(x: int, y: int) { 0 <= x < Width && 0 <= y < Height }

    ghost function At(x: int, y: int): Pixel
      requires Valid() && In(x, y)
      reads Base
    {
      IndexBound(Width, Height, x, y);
      Base[y * Width + x]
    }

    method SetPixel(X: nat, Y: nat, p: Pixel)
      requires Valid() && In(X, Y)
      modifies Base
      ensures forall x, y :: In(x, y) ==> At(x, y) == if x == X && y == Y then p else old(At(x, y))
    {
      IndexBound(Width, Height, X, Y);
      Base[Y * Width + X] := p;
      forall x, y | In(x, y) ensures At(x, y) == if x == X && y == Y then p else old(At(x, y)) {
        IndexBound(Width, Height, x, y);
        if y * Width + x == Y * Width + X { IndexInjective(Width, x, y, X, Y); }
      }
    }

    /** Pixel (x, y) is an enabled pixel of the glyph at (X0, Y0), within the rows [r0, r1) and the first n columns. */
    ghost predicate Inked(font: Font, c: char, X0: int, Y0: int, r0: int, r1: int, n: int, x: int, y: int) {
      && X0 <= x < X0 + n && x < X0 + FONT_PX_X && Y0 + r0 <= y < Y0 + r1 && 0 <= y - Y0
      && Enabled(font, c, x - X0, y - Y0)
    }

    /** The glyph's enabled pixels in the text colour; the other pixels of the cell are left alone. */
    method DrawGlyph(font: Font, c: char, CharacterXPos: nat, CharacterYPos: nat, colour: Colour)
      requires Valid() && CharacterXPos + FONT_PX_X <= Width && CharacterYPos + FONT_PX_Y <= Height
      modifies Base
      ensures forall x, y :: In(x, y) ==>
        At(x, y).Rgb()
        == if Inked(font, c, CharacterXPos, CharacterYPos, 0, FONT_PX_Y, FONT_PX_X, x, y) then colour
           else old(At(x, y)).Rgb()
    {
      for YOffset := 0 to FONT_PX_Y
        invariant forall x, y :: In(x, y) ==>
          At(x, y).Rgb()
          == if Inked(font, c, CharacterXPos, CharacterYPos, 0, YOffset, FONT_PX_X, x, y) then colour
             else old(At(x, y)).Rgb()
      {
        DrawGlyphRow(font, c, CharacterXPos, CharacterYPos, YOffset, colour);
      }
    }

    method DrawGlyphRow(font: Font, c: char, CharacterXPos: nat, CharacterYPos: nat, YOffset: nat, colour: Colour)
      requires Valid() && CharacterXPos + FONT_PX_X <= Width && CharacterYPos + YOffset < Height && YOffset < FONT_PX_Y
      modifies Base
      ensures forall x, y :: In(x, y) ==>
        At(x, y).Rgb()
        == if Inked(font, c, CharacterXPos, CharacterYPos, YOffset, YOffset + 1, FONT_PX_X, x, y) then colour
           else old(At(x, y)).Rgb()
    {
      var RowData := font(c, YOffset);
      for XOffset := 0 to FONT_PX_X
        invariant forall x, y :: In(x, y) ==>
          At(x, y).Rgb()
          == if Inked(font, c, CharacterXPos, CharacterYPos, YOffset, YOffset + 1, XOffset, x, y) then colour
             else old(At(x, y)).Rgb()
      {
        DrawGlyphPixel(RowData, XOffset, CharacterXPos + XOffset, CharacterYPos + YOffset, colour);
      }
    }

    method DrawGlyphPixel(RowData: bv8, XOffset: nat, X: nat, Y: nat, colour: Colour)
      requires Valid() && In(X, Y) && XOffset < FONT_PX_X
      modifies Base
      ensures forall x, y :: In(x, y) ==>
        At(x, y).Rgb() == (if x == X && y == Y && RowBit(RowData, XOffset) then colour else old(At(x, y)).Rgb())
    {
      if RowBit(RowData, XOffset) {
        SetPixel(X, Y, Pixel(colour.Blue, colour.Green, colour.Red, 0xFF));
      }
    }

    /** Every pixel of a rectangle becomes p. */
    method FillRect(X0: nat, Y0: nat, W: nat, H: nat, p: Pixel)
      requires Valid() && X0 + W <= Width && Y0 + H <= Height
      modifies Base
      ensures forall x, y :: In(x, y) ==> At(x, y) == if X0 <= x < X0 + W && Y0 <= y < Y0 + H then p else old(At(x, y))
    {
      for YOffset := 0 to H
        invariant forall x, y :: In(x, y) ==>
          At(x, y) == if X0 <= x < X0 + W && Y0 <= y < Y0 + YOffset then p else old(At(x, y))
      {
        label Row:
        for XOffset := 0 to W
          invariant forall x, y :: In(x, y) ==>
            At(x, y) == if X0 <= x < X0 + XOffset && y == Y0 + YOffset then p else old@Row(At(x, y))
        {
          SetPixel(X0 + XOffset, Y0 + YOffset, p);
        }
      }
    }

    /** The forward copy over overlapping ranges: every pixel still comes from the original. */
    method CopyBack(PixelCount: nat, Step: nat)
      requires PixelCount + Step <= Base.Length
      modifies Base
      ensures forall k :: 0 <= k < PixelCount ==> Base[k] == old(Base[k + Step])
      ensures forall k :: PixelCount <= k < Base.Length ==> Base[k] == old(Base[k])
    {
      ghost var was := Base[..];
      for i := 0 to PixelCount
        invariant forall k :: 0 <= k < i ==> Base[k] == was[k + Step]
        invariant forall k :: i <= k < Base.Length ==> Base[k] == was[k]
      {
        Base[i] := Base[i + Step];
      }
    }

    method ZeroPixels(from: nat, count: nat)
      requires from + count <= Base.Length
      modifies Base
      ensures forall k :: from <= k < from + count ==> Base[k] == Pixel(0, 0, 0, 0)
      ensures forall k :: 0 <= k < Base.Length && !(from <= k < from + count) ==> Base[k] == old(Base[k])
    {
      for i := from to from + count
        invariant forall k :: from <= k < i ==> Base[k] == Pixel(0, 0, 0, 0)
        invariant forall k :: 0 <= k < Base.Length && !(from <= k < i) ==> Base[k] == old(Base[k])
      {
        Base[i] := Pixel(0, 0, 0, 0);
      }
    }

    /** A scroll by one text row is a simultaneous shift, with the last text row cleared. */
    method ScrollUp(MaximumRows: nat)
      requires Valid() && 1 <= MaximumRows && MaximumRows * FONT_PX_Y <= Height
      modifies Base
      ensures forall x, y :: In(x, y) ==>
        At(x, y) == (if y < (MaximumRows - 1) * FONT_PX_Y then old(At(x, y + FONT_PX_Y))
                    else if y < MaximumRows * FONT_PX_Y then Pixel(0, 0, 0, 0)
                    else old(At(x, y)))
    {
      var NumPixels := (MaximumRows - 1) * FONT_PX_Y * Width;
      var NumPixelsToBlank := FONT_PX_Y * Width;
      MulMonotone(MaximumRows * FONT_PX_Y, Height, Width);
      assert NumPixels + NumPixelsToBlank == MaximumRows * FONT_PX_Y * Width;
      CopyBack(NumPixels, NumPixelsToBlank);
      ZeroPixels(NumPixels, NumPixelsToBlank);
      forall x, y | In(x, y)
        ensures At(x, y) ==
                (if y < (MaximumRows - 1) * FONT_PX_Y then old(At(x, y + FONT_PX_Y))
                 else if y < MaximumRows * FONT_PX_Y then Pixel(0, 0, 0, 0)
                 else old(At(x, y)))
      {
        IndexBound(Width, Height, x, y);
        ScrollIndex(MaximumRows, x, y);
      }
    }

    lemma ScrollIndex(rows: nat, x: nat, y: nat)
      requires x < Width && 1 <= rows
      ensures (y + FONT_PX_Y) * Width + x == y * Width + x + FONT_PX_Y * Width
      ensures y < (rows - 1) * FONT_PX_Y <==> y * Width + x < (rows - 1) * FONT_PX_Y * Width
      ensures y < rows * FONT_PX_Y <==> y * Width + x < rows * FONT_PX_Y * Width
    {
      RowBound(x, y, (rows - 1) * FONT_PX_Y);
      RowBound(x, y, rows * FONT_PX_Y);
    }

    lemma RowBound(x: nat, y: nat, r: nat)
      requires x < Width
      ensures y < r <==> y * Width + x < r * Width
    {
      if y < r { MulMonotone(y + 1, r, Width); } else { MulMonotone(r, y, Width); }
    }
  }
}
