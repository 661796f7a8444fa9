/**
 * The image library as the texture manager uses it: detect the format from the
 * file signature, fall back to the file name, check the plugin can read, load a
 * bitmap. The four library calls are the fields of an ImageLib.
 */
module ImageDecoding {
  import opened Wrappers

  /** A FreeImage format; `Unknown` is FIF_UNKNOWN. */
  datatype Format = Unknown | Known(code: nat)

  /** A loaded bitmap: whether its pixel pointer is non-null, and its size. */
  datatype Bitmap = Bitmap(hasBits: bool, width: nat, height: nat)

  datatype ImageLib = ImageLib(
    fileType: string -> Format,            // FreeImage_GetFileType
    formatFromName: string -> Format,      // FreeImage_GetFIFFromFilename
    supportsReading: Format -> bool,       // FreeImage_FIFSupportsReading
    load: (Format, string) -> Option<Bitmap>) // FreeImage_Load, None for a null bitmap

  /** The signature decides; the file name is consulted only when the signature is unknown. */
  function DetectFormat(lib: ImageLib, name: string): (f: Format)
    ensures lib.fileType(name).Known? ==> f == lib.fileType(name)
    ensures lib.fileType(name).Unknown? ==> f == lib.formatFromName(name)
  {
    var fif := lib.fileType(name);
    if fif.Unknown? then lib.formatFromName(name) else fif
  }

  /**
   * The bitmap of `name`, or None when the format stays unknown, the format
   * cannot be read, or loading returns a null bitmap.
   */
  function OpenImage(lib: ImageLib, name: string): (r: Option<Bitmap>)
    ensures r.None? <==>
              || DetectFormat(lib, name).Unknown?
              || !lib.supportsReading(DetectFormat(lib, name))
              || lib.load(DetectFormat(lib, name), name).None?
    ensures r.Some? ==> r == lib.load(DetectFormat(lib, name), name)
  {
    var fif := DetectFormat(lib, name);
    if fif.Unknown? then None
    else if lib.supportsReading(fif) then lib.load(fif, name)
    else None
  }

  /** The check LoadTexture and the atlas build apply: pixels present and both sides non-zero. */
  predicate Usable(bm: Bitmap)
  {
    bm.hasBits && bm.width != 0 && bm.height != 0
  }
}
