/** Pixels, images and rectangular regions: the vocabulary shared by the
    statistics, the quadtree builder and the renderer. */
module Raster {

  /** One 8-bit colour sample (an `unsigned char` of the image buffer). */
  type Sample = v: int | 0 <= v <= 255

  /** The three colour channels of an RGB image, in storage order. */
  datatype Channel = Red | Green | Blue

  /** One pixel of an 8-bit, three-channel image. */
  datatype Pixel = Pixel(r: Sample, g: Sample, b: Sample) {
    function Get(c: Channel): Sample {
      match c
      case Red => r
      case Green => g
      case Blue => b
    }
  }

  /** A real-valued colour: the per-channel average of a region (the source's `RGB`
      struct of three doubles, defaulting to zero). */
  datatype RGB = RGB(r: real, g: real, b: real) {
    function Get(c: Channel): real {
      match c
      case Red => r
      case Green => g
      case Blue => b
    }
  }

  const Black: RGB := RGB(0.0, 0.0, 0.0)

  /** A decoded image: `rows[j][i]` is the pixel at column `i`, row `j`. */
  datatype Raw = Raw(width: nat, height: nat, rows: seq<seq<Pixel>>) {
    predicate Valid() {
      |rows| == height && forall j | 0 <= j < |rows| :: |rows[j]| == width
    }
  }

  /** An image whose rows all have the stated width. */
  type Image = im: Raw | im.Valid() witness Raw(0, 0, [])

  /** The pixel at column `i`, row `j` (the source's `image(i, j, 0, c)` for each `c`). */
  function At(img: Image, i: nat, j: nat): Pixel
    requires i < img.width && j < img.height
  {
    img.rows[j][i]
  }

  /** An axis-aligned rectangle: its top-left corner and its size. */
  datatype Region = Region(x: nat, y: nat, width: nat, height: nat) {
    function Area(): nat {
      width * height
    }

    /** Whether the pixel at column `i`, row `j` lies inside the rectangle. */
    predicate Contains(i: int, j: int) {
      x <= i < x + width && y <= j < y + height
    }

    /** Whether the rectangle lies inside the rectangle `outer`. */
    predicate Inside(outer: Region) {
      outer.x <= x && x + width <= outer.x + outer.width && outer.y <= y && y + height <= outer.y + outer.height
    }

    /** Whether the rectangle lies inside the image. */
    predicate Within(img: Image) {
      x + width <= img.width && y + height <= img.height
    }
  }

  /** The rectangle of a whole image. */
  function Full(img: Image): (rg: Region)
    ensures rg.Within(img)
    ensures forall i, j :: rg.Contains(i, j) <==> 0 <= i < img.width && 0 <= j < img.height
  {
    Region(0, 0, img.width, img.height)
  }

  /** Every pixel of `rg` equals `p`. */
  ghost predicate Uniform(img: Image, rg: Region, p: Pixel)
    requires rg.Within(img)
  {
    forall i: nat, j: nat | rg.Contains(i, j) :: At(img, i, j) == p
  }

  function Min(a: int, b: int): int {
    if a < b then a else b
  }

  function Max(a: int, b: int): int {
    if a < b then b else a
  }
}
