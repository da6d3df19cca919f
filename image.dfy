/**
 * The image of src/image/image.cpp: a fixed buffer of `width * height`
 * colours addressed by `(row, col)`. Its callers address a pixel as
 * `(x, y)` with `x < width` and `y < height` (src/renderer/raytracer.cpp,
 * src/image/ppm_writer.cpp), so `row` runs along the width.
 */
module Images {
  import opened Vectors

  /**
   * `image::index` as written: `row * width + col`. For the coordinates the
   * callers pass it can leave the buffer and can send two pixels to one cell.
   */
  function IndexAsWritten(width: nat, row: nat, col: nat): nat {
    row * width + col
  }

  /**
   * Out of bounds: in a 2 x 1 image, the caller's pixel `(1, 0)` is sent to
   * cell 2 of a 2-cell buffer.
   */
  lemma AsWrittenLeavesBuffer()
    ensures var width, height := 2, 1;
            1 < width && 0 < height && IndexAsWritten(width, 1, 0) >= width * height
  {
  }

  /**
   * Collision: whenever the image is taller than it is wide and at least two
   * pixels wide, the caller's pixels `(0, width)` and `(1, 0)` are both pixels
   * of the image and are sent to the same cell; in a 2 x 3 image these are
   * `(0, 2)` and `(1, 0)`, both sent to cell 2.
   */
  lemma AsWrittenCollides(width: nat, height: nat)
    requires 2 <= width < height
    ensures 0 < width && width < height && 1 < width && 0 < height
    ensures (0, width) != (1, 0) && IndexAsWritten(width, 0, width) == IndexAsWritten(width, 1, 0)
  {
  }

  /**
   * Whenever the image is wider than it is tall, the last pixel the callers
   * address lies beyond the buffer.
   */
  lemma AsWrittenOutOfBounds(width: nat, height: nat)
    requires 0 < height < width
    ensures IndexAsWritten(width, width - 1, height - 1) >= width * height
  {
    assert (width - 1) * width == width * width - width;
    assert width * width >= width * (height + 1) by {
      MulMono(width, height + 1, width);
    }
  }

  lemma MulMono(a: nat, b: nat, c: nat)
    requires b <= c
    ensures a * b <= a * c
  {
  }

  /**
   * The index the callers evidently intend: row-major storage with `col`,
   * the vertical coordinate, selecting the line and `row` the position in it.
   */
  function Index(width: nat, row: nat, col: nat): nat {
    col * width + row
  }

  /** Every pixel of the image has a cell of the buffer. */
  lemma IndexInBounds(width: nat, height: nat, row: nat, col: nat)
    requires row < width && col < height
    ensures Index(width, row, col) < width * height
  {
    MulMono(width, col + 1, height);
    assert (col + 1) * width == col * width + width;
  }

  /** Distinct pixels occupy distinct cells. */
  lemma IndexInjective(width: nat, r1: nat, c1: nat, r2: nat, c2: nat)
    requires r1 < width && r2 < width
    requires Index(width, r1, c1) == Index(width, r2, c2)
    ensures r1 == r2 && c1 == c2
  {
    if c1 < c2 {
      IndexBelow(width, r1, c1, r2, c2);
    } else if c2 < c1 {
      IndexBelow(width, r2, c2, r1, c1);
    }
  }

  /** A pixel on an earlier line has a smaller index. */
  lemma IndexBelow(width: nat, r1: nat, c1: nat, r2: nat, c2: nat)
    requires r1 < width && c1 < c2
    ensures Index(width, r1, c1) < Index(width, r2, c2)
  {
    MulMono(width, c1 + 1, c2);
    assert (c1 + 1) * width == c1 * width + width;
  }

  /**
   * Each cell of the buffer belongs to exactly one pixel: the coordinates
   * are recovered from the index by division.
   */
  lemma IndexInverse(width: nat, row: nat, col: nat)
    requires row < width
    ensures Index(width, row, col) % width == row
    ensures Index(width, row, col) / width == col
  {
    var n := Index(width, row, col);
    assert n == (n / width) * width + n % width;
    IndexInjective(width, row, col, n % width, n / width);
  }

  /** The colour a buffer holds for pixel `(row, col)`. */
  function PixelIn(buf: seq<Vec3>, width: nat, height: nat, row: nat, col: nat): Vec3
    requires |buf| == width * height && row < width && col < height
  {
    IndexInBounds(width, height, row, col);
    buf[Index(width, row, col)]
  }

  /**
   * Writing one pixel's cell changes that pixel to the new colour and leaves
   * every other pixel as it was.
   */
  lemma WriteTouchesOnePixel(buf: seq<Vec3>, width: nat, height: nat, row: nat, col: nat, color: Vec3,
                             r: nat, c: nat)
    requires |buf| == width * height && row < width && col < height && r < width && c < height
    ensures Index(width, row, col) < |buf|
    ensures PixelIn(buf[Index(width, row, col) := color], width, height, r, c)
            == if r == row && c == col then color else PixelIn(buf, width, height, r, c)
  {
    IndexInBounds(width, height, row, col);
    IndexInBounds(width, height, r, c);
    var i, j := Index(width, row, col), Index(width, r, c);
    var updated := buf[i := color];
    assert PixelIn(updated, width, height, r, c) == updated[j];
    if r != row || c != col {
      if i == j {
        IndexInjective(width, r, c, row, col);
      }
      assert updated[j] == buf[j];
    }
  }

  /** `image`: the dimensions and the pixel buffer. */
  class Image {
    const width: nat
    const height: nat
    const buffer: array<Vec3>

    ghost predicate Valid()
      reads this
    {
      buffer.Length == width * height
    }

    /** The colour stored for pixel `(row, col)`. */
    function Pixel(row: nat, col: nat): Vec3
      reads this, buffer
      requires Valid() && row < width && col < height
    {
      PixelIn(buffer[..], width, height, row, col)
    }

    /** `image(width, height)`: every pixel starts black. */
    constructor (width: nat, height: nat)
      ensures Valid() && fresh(buffer)
      ensures this.width == width && this.height == height
      ensures forall i :: 0 <= i < buffer.Length ==> buffer[i] == Zero
    {
      this.width := width;
      this.height := height;
      buffer := new Vec3[width * height](_ => Zero);
    }

    function GetWidth(): (w: nat)
      ensures w == width
    {
      width
    }

    function GetHeight(): (h: nat)
      ensures h == height
    {
      height
    }

    /**
     * `set_pixel`: overwrite the cell of one pixel and nothing else (see
     * `WriteTouchesOnePixel` for what this means pixel by pixel).
     */
    method SetPixel(row: nat, col: nat, color: Vec3)
      requires Valid() && row < width && col < height
      modifies buffer
      ensures Valid()
      ensures Index(width, row, col) < buffer.Length
      ensures buffer[..] == old(buffer[..])[Index(width, row, col) := color]
      ensures Pixel(row, col) == color
    {
      IndexInBounds(width, height, row, col);
      buffer[Index(width, row, col)] := color;
    }

    /** `get_pixel`: the colour of one pixel, leaving the image as it is. */
    method GetPixel(row: nat, col: nat) returns (color: Vec3)
      requires Valid() && row < width && col < height
      ensures color == Pixel(row, col)
    {
      IndexInBounds(width, height, row, col);
      color := buffer[Index(width, row, col)];
    }
  }
}
