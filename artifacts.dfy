/**
 * The per-order artifact paths of tasks.py: the receipt document written by
 * `store_receipt_as_pdf` and targeted by `embed_screenshot_to_receipt`, and the
 * snapshot image written by `screenshot_robot`; and the final bundle's name.
 */
module Artifacts {
  import opened Maybe

  /** The folder every per-order artifact is written to, and the only one archived. */
  const OutputDir: string := "output/"
  /** The bundle `archive_receipts` writes. */
  const ArchiveName: string := "merged.zip"
  const PdfExtension: string := ".pdf"
  const PngExtension: string := ".png"

  /** The f-string `output/{n}.<ext>`, for an order number `n`. */
  function ArtifactPath(orderNumber: string, extension: string): (path: string)
    ensures |path| == |OutputDir| + |orderNumber| + |extension|
    ensures OutputDir <= path
  {
    OutputDir + orderNumber + extension
  }

  /** Where the receipt of an order is stored and where its snapshot is embedded. */
  function PdfPath(orderNumber: string): string
  {
    ArtifactPath(orderNumber, PdfExtension)
  }

  /** Where the snapshot of an order is captured and resized in place. */
  function PngPath(orderNumber: string): string
  {
    ArtifactPath(orderNumber, PngExtension)
  }

  /** Reads the order number back out of an artifact path with the given extension. */
  function OrderNumberOf(path: string, extension: string): (orderNumber: Option<string>)
    ensures orderNumber.Some? ==> ArtifactPath(orderNumber.value, extension) == path
  {
    if |OutputDir| + |extension| <= |path|
       && path[..|OutputDir|] == OutputDir
       && path[|path| - |extension|..] == extension
    then
      var n := path[|OutputDir|..|path| - |extension|];
      assert OutputDir + n + extension == path[..|OutputDir|] + path[|OutputDir|..|path| - |extension|] + path[|path| - |extension|..];
      Some(n)
    else None
  }

  /** Reading an artifact path back gives the order number it was built from. */
  lemma ArtifactPathRoundTrip(orderNumber: string, extension: string)
    ensures OrderNumberOf(ArtifactPath(orderNumber, extension), extension) == Some(orderNumber)
  {
    var p := ArtifactPath(orderNumber, extension);
    assert p[..|OutputDir|] == OutputDir;
    assert p[|p| - |extension|..] == extension;
    assert p[|OutputDir|..|p| - |extension|] == orderNumber;
  }

  /** Distinct order numbers give distinct receipt paths and distinct snapshot paths. */
  lemma ArtifactPathInjective(n1: string, n2: string, extension: string)
    requires ArtifactPath(n1, extension) == ArtifactPath(n2, extension)
    ensures n1 == n2
  {
    ArtifactPathRoundTrip(n1, extension);
    ArtifactPathRoundTrip(n2, extension);
  }

  /** A receipt path is never a snapshot path, whatever the two order numbers. */
  lemma PdfNeverPng(n1: string, n2: string)
    ensures PdfPath(n1) != PngPath(n2)
  {
    var p, q := PdfPath(n1), PngPath(n2);
    assert p[|p| - 1] == 'f';
    assert q[|q| - 1] == 'g';
  }

  /** Both artifacts of an order lie in the archived folder, and neither is the bundle itself. */
  lemma ArtifactsInOutputDir(orderNumber: string)
    ensures OutputDir <= PdfPath(orderNumber) && OutputDir <= PngPath(orderNumber)
    ensures PdfPath(orderNumber) != ArchiveName && PngPath(orderNumber) != ArchiveName
  {
    assert PdfPath(orderNumber)[0] == 'o' && PngPath(orderNumber)[0] == 'o';
    assert ArchiveName[0] == 'm';
  }
}
