/**
 * The records the PDF backend describes an image with: its region on the page, its type, its
 * pixel metadata and its encoding format with that format's file extension and MIME type.
 */
module PdfImage {
  import opened Wrappers
  import opened PdfTypes

  /** A Rust `u32`. */
  type U32 = x: nat | x < 0x1_0000_0000

  /** A Rust `u8`. */
  type Byte = x: nat | x < 0x100

  /** One more than the largest `u64`. */
  const U64Bound: nat := 0x1_0000_0000_0000_0000

  /** Classification of an image's content. */
  datatype ImageType = Photo | Diagram | Logo | Chart | Unknown

  /** `Default for ImageType`. */
  function DefaultImageType(): (t: ImageType)
    ensures t == ImageType.Unknown
  {
    ImageType.Unknown
  }

  /** Encoding of an image's bytes. */
  datatype ImageFormat = Jpeg | Png | Bmp | Tiff | Gif | Raw | Unknown
  {
    /** `ImageFormat::extension`. */
    function Extension(): string
    {
      match this
      case Jpeg => "jpg"
      case Png => "png"
      case Bmp => "bmp"
      case Tiff => "tiff"
      case Gif => "gif"
      case Raw => "raw"
      case Unknown => "bin"
    }

    /** `ImageFormat::mime_type`. */
    function MimeType(): string
    {
      match this
      case Jpeg => "image/jpeg"
      case Png => "image/png"
      case Bmp => "image/bmp"
      case Tiff => "image/tiff"
      case Gif => "image/gif"
      case Raw => "application/octet-stream"
      case Unknown => "application/octet-stream"
    }
  }

  /** `Default for ImageFormat`. */
  function DefaultImageFormat(): (f: ImageFormat)
    ensures f == ImageFormat.Unknown
  {
    ImageFormat.Unknown
  }

  /** Distinct formats have distinct extensions. */
  lemma ExtensionInjective(f: ImageFormat, g: ImageFormat)
    requires f.Extension() == g.Extension()
    ensures f == g
  {
  }

  /**
   * Raw and Unknown share the generic binary MIME type and no other format has it; each real
   * image format has an `image/` type, which for all but JPEG ends in its extension.
   */
  lemma MimeTypes(f: ImageFormat)
    ensures f.MimeType() == "application/octet-stream" <==> f == Raw || f == ImageFormat.Unknown
    ensures f != Raw && f != ImageFormat.Unknown ==> f.MimeType()[..6] == "image/"
    ensures f != Raw && f != ImageFormat.Unknown && f != Jpeg ==> f.MimeType() == "image/" + f.Extension()
  {
  }

  /** Pixel metadata of an image. */
  datatype ImageMetadata = ImageMetadata(
    width: U32, height: U32, format: ImageFormat, dpi: Option<U32>, colorSpace: Option<string>)
  {
    /** `with_dpi`: sets the DPI and nothing else. */
    function WithDpi(dpi: U32): (m: ImageMetadata)
      ensures m.dpi == Some(dpi)
      ensures m.(dpi := this.dpi) == this
    {
      this.(dpi := Some(dpi))
    }

    /** `with_color_space`: sets the colour space and nothing else. */
    function WithColorSpace(colorSpace: string): (m: ImageMetadata)
      ensures m.colorSpace == Some(colorSpace)
      ensures m.(colorSpace := this.colorSpace) == this
    {
      this.(colorSpace := Some(colorSpace))
    }

    /** `area`: width times height, widened to `u64`, where the product always fits. */
    function Area(): (a: nat)
      ensures a == width as int * height as int
      ensures a < U64Bound
    {
      ProductFits(width, height);
      width * height
    }
  }

  /** The product of two `u32` values stays below 2^64. */
  lemma ProductFits(a: U32, b: U32)
    ensures a * b < U64Bound
  {
    var m: nat := 0x1_0000_0000;
    assert a * b <= a * m by {
      assert b < m;
    }
    assert a * m < m * m;
    assert m * m == U64Bound;
  }

  /** `ImageMetadata::new`: no DPI and no colour space. */
  function NewImageMetadata(width: U32, height: U32, format: ImageFormat): (m: ImageMetadata)
    ensures m.width == width && m.height == height && m.format == format
    ensures m.dpi == None && m.colorSpace == None
  {
    ImageMetadata(width, height, format, None, None)
  }

  /** An image found on a page. */
  datatype ImageRegion = ImageRegion(
    bbox: BoundingBox, imageType: ImageType, bitmap: Option<seq<Byte>>, metadata: ImageMetadata,
    confidence: Option<real>)
  {
    /** `with_type`: sets the classification and nothing else. */
    function WithType(imageType: ImageType): (r: ImageRegion)
      ensures r.imageType == imageType
      ensures r.(imageType := this.imageType) == this
    {
      this.(imageType := imageType)
    }

    /** `with_bitmap`: attaches the bitmap and nothing else. */
    function WithBitmap(bitmap: seq<Byte>): (r: ImageRegion)
      ensures r.bitmap == Some(bitmap)
      ensures r.(bitmap := this.bitmap) == this
    {
      this.(bitmap := Some(bitmap))
    }

    /** `with_confidence`: sets the confidence and nothing else. */
    function WithConfidence(confidence: real): (r: ImageRegion)
      ensures r.confidence == Some(confidence)
      ensures r.(confidence := this.confidence) == this
    {
      this.(confidence := Some(confidence))
    }
  }

  /** `ImageRegion::new`: unclassified, without bitmap or confidence. */
  function NewImageRegion(bbox: BoundingBox, metadata: ImageMetadata): (r: ImageRegion)
    ensures r.bbox == bbox && r.metadata == metadata
    ensures r.imageType == ImageType.Unknown && r.bitmap == None && r.confidence == None
  {
    ImageRegion(bbox, ImageType.Unknown, None, metadata, None)
  }

  /** The builders touch disjoint fields, so their order does not matter. */
  lemma BuildersCommute(r: ImageRegion, t: ImageType, b: seq<Byte>, c: real)
    ensures r.WithType(t).WithBitmap(b) == r.WithBitmap(b).WithType(t)
    ensures r.WithType(t).WithConfidence(c) == r.WithConfidence(c).WithType(t)
    ensures r.WithBitmap(b).WithConfidence(c) == r.WithConfidence(c).WithBitmap(b)
  {
  }
}
