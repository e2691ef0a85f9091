/**
 * The pdfium image extractor's own logic: recognising an image encoding by its leading magic
 * bytes, and keeping only regions of at least the minimum size.
 */
module PdfImageExtractor {
  import opened PdfImage

  /** The extractor's settings. */
  datatype PdfiumImageExtractor = PdfiumImageExtractor(
    minImageSize: U32, extractBitmaps: bool, classifyImages: bool)
  {
    /** A region is kept when its area is at least the square of the minimum size. */
    predicate MeetsMinimumSize(region: ImageRegion)
    {
      region.metadata.Area() >= minImageSize * minImageSize
    }

    /** The regions of `candidates` that are large enough, in their order. */
    function LargeEnough(candidates: seq<ImageRegion>): (kept: seq<ImageRegion>)
      ensures |kept| <= |candidates|
    {
      if candidates == [] then []
      else
        var n := |candidates| - 1;
        LargeEnough(candidates[..n]) + (if MeetsMinimumSize(candidates[n]) then [candidates[n]] else [])
    }

    /** Exactly the large enough candidates are kept. */
    lemma {:induction false} LargeEnoughKeeps(candidates: seq<ImageRegion>)
      ensures forall r | r in LargeEnough(candidates) :: r in candidates && MeetsMinimumSize(r)
      ensures forall r | r in candidates && MeetsMinimumSize(r) :: r in LargeEnough(candidates)
    {
      if candidates != [] {
        var n := |candidates| - 1;
        LargeEnoughKeeps(candidates[..n]);
        assert candidates == candidates[..n] + [candidates[n]];
      }
    }

    /** Filtering twice keeps the same regions as filtering once. */
    lemma {:induction false} LargeEnoughIdempotent(candidates: seq<ImageRegion>)
      ensures LargeEnough(LargeEnough(candidates)) == LargeEnough(candidates)
    {
      if candidates != [] {
        var n := |candidates| - 1;
        var init := LargeEnough(candidates[..n]);
        LargeEnoughIdempotent(candidates[..n]);
        if MeetsMinimumSize(candidates[n]) {
          var kept := init + [candidates[n]];
          assert kept[..|kept| - 1] == init && kept[|kept| - 1] == candidates[n];
          assert LargeEnough(kept) == LargeEnough(init) + [candidates[n]];
        } else {
          assert LargeEnough(candidates) == init;
        }
      }
    }

    /**
     * The area filter of `extract_from_page`: each candidate region, in page order, is pushed
     * when it meets the minimum size.
     */
    method FilterRegions(candidates: seq<ImageRegion>) returns (regions: seq<ImageRegion>)
      ensures regions == LargeEnough(candidates)
    {
      regions := [];
      for i := 0 to |candidates|
        invariant regions == LargeEnough(candidates[..i])
      {
        var region := candidates[i];
        if region.metadata.Area() >= minImageSize * minImageSize {
          regions := regions + [region];
        }
        assert candidates[..i + 1][..i] == candidates[..i];
      }
      assert candidates[..|candidates|] == candidates;
    }
  }

  /** `PdfiumImageExtractor::new`: 100-pixel minimum, bitmaps and classification on. */
  function NewExtractor(): (e: PdfiumImageExtractor)
    ensures e.minImageSize == 100 && e.extractBitmaps && e.classifyImages
  {
    PdfiumImageExtractor(100, true, true)
  }

  /** With the default settings a region needs at least 10000 pixels: 100 x 100. */
  lemma DefaultMinimumArea(region: ImageRegion)
    ensures NewExtractor().MeetsMinimumSize(region) <==> region.metadata.width * region.metadata.height >= 10000
  {
  }

  // ---------------------------------------------------------------------------------------
  // Magic bytes
  // ---------------------------------------------------------------------------------------

  predicate StartsWith(data: seq<Byte>, prefix: seq<Byte>)
  {
    |prefix| <= |data| && data[..|prefix|] == prefix
  }

  /** The leading byte sequences that identify each format. */
  function Signatures(f: ImageFormat): set<seq<Byte>>
  {
    match f
    case Jpeg => {[0xFF, 0xD8, 0xFF]}
    case Png => {[0x89, 0x50, 0x4E, 0x47]}
    case Bmp => {[0x42, 0x4D]}
    case Tiff => {[0x49, 0x49], [0x4D, 0x4D]}
    case Gif => {[0x47, 0x49, 0x46]}
    case Raw => {}
    case Unknown => {}
  }

  /** The data begins with one of the format's signatures. */
  predicate HasSignature(data: seq<Byte>, f: ImageFormat)
  {
    exists s | s in Signatures(f) :: StartsWith(data, s)
  }

  /**
   * `detect_format`: Unknown for fewer than four bytes; otherwise the first format whose
   * signature the data starts with, tried in the order JPEG, PNG, BMP, TIFF, GIF; Raw when
   * none matches.
   */
  function DetectFormat(data: seq<Byte>): (f: ImageFormat)
    ensures f == ImageFormat.Unknown <==> |data| < 4
  {
    if |data| < 4 then ImageFormat.Unknown
    else if data[0..3] == [0xFF, 0xD8, 0xFF] then Jpeg
    else if data[0..4] == [0x89, 0x50, 0x4E, 0x47] then Png
    else if data[0..2] == [0x42, 0x4D] then Bmp
    else if data[0..2] == [0x49, 0x49] || data[0..2] == [0x4D, 0x4D] then Tiff
    else if data[0..3] == [0x47, 0x49, 0x46] then Gif
    else Raw
  }

  /** Every signature starts with a byte that no other format's signatures start with. */
  lemma SignaturesDisjoint(data: seq<Byte>, f: ImageFormat, g: ImageFormat)
    requires HasSignature(data, f) && HasSignature(data, g)
    ensures f == g
  {
    var s :| s in Signatures(f) && StartsWith(data, s);
    var t :| t in Signatures(g) && StartsWith(data, t);
    assert s[0] == data[0] == t[0];
  }

  /** A detected format other than Raw is one whose signature the data starts with. */
  lemma DetectedHasSignature(data: seq<Byte>)
    requires |data| >= 4 && DetectFormat(data) != Raw
    ensures HasSignature(data, DetectFormat(data))
  {
    var s: seq<Byte> :=
      match DetectFormat(data)
      case Jpeg => [0xFF, 0xD8, 0xFF]
      case Png => [0x89, 0x50, 0x4E, 0x47]
      case Bmp => [0x42, 0x4D]
      case Tiff => data[0..2]
      case Gif => [0x47, 0x49, 0x46]
      case Raw => []
      case Unknown => [];
    assert s in Signatures(DetectFormat(data)) && StartsWith(data, s);
  }

  /** Raw is detected only when no signature matches. */
  lemma RawHasNoSignature(data: seq<Byte>, g: ImageFormat)
    requires |data| >= 4 && DetectFormat(data) == Raw
    ensures !HasSignature(data, g)
  {
    if g != Raw && g != ImageFormat.Unknown {
      forall s | s in Signatures(g)
        ensures !StartsWith(data, s)
      {
        assert data[..|s|] != s;
      }
    }
  }

  /**
   * For four or more bytes, the detected format is the one whose signature the data starts
   * with, and Raw exactly when it starts with none.
   */
  lemma DetectFormatBySignature(data: seq<Byte>, f: ImageFormat)
    requires |data| >= 4
    ensures f != Raw ==> (DetectFormat(data) == f <==> HasSignature(data, f))
    ensures DetectFormat(data) == Raw <==> forall g :: !HasSignature(data, g)
  {
    var d := DetectFormat(data);
    if d != Raw {
      DetectedHasSignature(data);
      if HasSignature(data, f) {
        SignaturesDisjoint(data, d, f);
      }
    } else {
      forall g
        ensures !HasSignature(data, g)
      {
        RawHasNoSignature(data, g);
      }
    }
  }

  /** The magic-byte examples: a JPEG and a PNG header, and three bytes that are too few. */
  lemma DetectFormatExamples()
    ensures DetectFormat([0xFF, 0xD8, 0xFF, 0xE0]) == Jpeg
    ensures DetectFormat([0x89, 0x50, 0x4E, 0x47, 0x0D, 0x0A]) == Png
    ensures DetectFormat([0x00, 0x01, 0x02]) == ImageFormat.Unknown
  {
    var jpeg: seq<Byte> := [0xFF, 0xD8, 0xFF, 0xE0];
    assert jpeg[0..3] == [0xFF, 0xD8, 0xFF];
    var png: seq<Byte> := [0x89, 0x50, 0x4E, 0x47, 0x0D, 0x0A];
    assert png[0..3] != [0xFF, 0xD8, 0xFF] by {
      assert png[0] != 0xFF;
    }
    assert png[0..4] == [0x89, 0x50, 0x4E, 0x47];
  }
}
