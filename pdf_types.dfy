/** Geometry shared by the PDF records: an axis-aligned box in page points. */
module PdfTypes {
  /** `BoundingBox`: left x, top y, width and height. */
  datatype BoundingBox = BoundingBox(x: real, y: real, width: real, height: real)
}
