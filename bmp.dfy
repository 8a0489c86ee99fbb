// BmpFormat (src/ImageSharp/Formats/Bmp/BmpFormat.cs): the constants that
// name the format and the check that a file header starts with the BMP
// signature "BM". The decoder and the encoder are not part of this model.

module Bmp {
  import opened Wrappers
  import opened Common

  const MimeType: string := "image/bmp"
  const Extension: string := "bmp"
  const SupportedExtensions: seq<string> := ["bmp", "dip"]

  /** How many header bytes the check needs. */
  const HeaderSize: nat := 2

  /** The two bytes every BMP file starts with: 'B' and 'M'. */
  const Signature: seq<byte> := [0x42, 0x4D]

  /**
   * IsSupportedFileFormat: a null header throws; otherwise the header is
   * accepted exactly when it starts with the signature.
   */
  function IsSupportedFileFormat(header: Option<seq<byte>>): (r: Result<bool, Error>)
    ensures header.None? <==> r == Failure(NullReference)
    ensures header.Some? ==> r.Success? && (r.value <==> Signature <= header.value)
  {
    match header
    case None => Failure(NullReference)
    case Some(h) => Success(|h| >= HeaderSize && h[0] == 0x42 && h[1] == 0x4D)
  }

  /** A header shorter than HeaderSize is never accepted. */
  lemma ShortHeaderRejected(h: seq<byte>)
    requires |h| < HeaderSize
    ensures IsSupportedFileFormat(Some(h)) == Success(false)
  {
  }

  /** Only the first HeaderSize bytes matter: headers that agree on them get the same answer. */
  lemma OnlyHeaderSizeBytesMatter(h: seq<byte>, g: seq<byte>)
    requires |h| >= HeaderSize && |g| >= HeaderSize && h[..HeaderSize] == g[..HeaderSize]
    ensures IsSupportedFileFormat(Some(h)) == IsSupportedFileFormat(Some(g))
  {
    assert h[0] == h[..HeaderSize][0] && h[1] == h[..HeaderSize][1];
    assert g[0] == g[..HeaderSize][0] && g[1] == g[..HeaderSize][1];
  }

  /** Whatever follows the signature, the header is accepted. */
  lemma SignatureThenAnything(rest: seq<byte>)
    ensures IsSupportedFileFormat(Some(Signature + rest)) == Success(true)
  {
  }
}
