/**
 * The binary PPM (P6) file the ray tracer writes: an ASCII header with the
 * magic number, the width and height in decimal and the maximum channel
 * value 255, each followed by a separator, then three bytes (red, green,
 * blue) per pixel in row-major order.
 */
module Ppm {
  import opened Wrappers
  import opened Image

  // ---------------------------------------------------------------------
  // Decimal text of the image size

  function DigitChar(d: nat): (c: char)
    requires d < 10
    ensures '0' <= c <= '9'
  {
    ('0' as int + d) as char
  }

  /** The decimal digits of n, most significant first, without leading zeros. */
  function Decimal(n: nat): (s: string)
    ensures |s| > 0
    ensures forall i :: 0 <= i < |s| ==> '0' <= s[i] <= '9'
    ensures s[0] == '0' <==> n == 0
  {
    if n < 10 then [DigitChar(n)] else Decimal(n / 10) + [DigitChar(n % 10)]
  }

  /** The number a string of decimal digits denotes. */
  function ParseDecimal(s: string): nat
    requires forall i :: 0 <= i < |s| ==> '0' <= s[i] <= '9'
  {
    if |s| == 0 then 0 else ParseDecimal(s[..|s| - 1]) * 10 + (s[|s| - 1] as int - '0' as int)
  }

  /** The decimal text denotes the number it was made from. */
  lemma {:induction false} ParseDecimalInverts(n: nat)
    ensures ParseDecimal(Decimal(n)) == n
  {
    var s := Decimal(n);
    if n >= 10 {
      ParseDecimalInverts(n / 10);
      assert s[..|s| - 1] == Decimal(n / 10);
    }
  }

  // ---------------------------------------------------------------------
  // Header

  /** The header text: magic number, width, height, maximum value, each ended by a separator. */
  function HeaderString(): (h: string)
    ensures |h| == 3 + |Decimal(ImageWidth)| + 1 + |Decimal(ImageHeight)| + 5
  {
    "P6\n" + Decimal(ImageWidth) + " " + Decimal(ImageHeight) + "\n255\n"
  }

  /** For the default size the header is the 15 characters "P6\n640 480\n255\n". */
  lemma HeaderStringDefault()
    ensures HeaderString() == "P6\n640 480\n255\n"
    ensures |HeaderString()| == 15
  {
    assert Decimal(64) == "64";
    assert Decimal(640) == "640";
    assert Decimal(48) == "48";
    assert Decimal(480) == "480";
  }

  /** A character stored into an unsigned byte: its code modulo 256. */
  function CharByte(c: char): (b: byte)
    ensures c as int < 256 ==> b == c as int
  {
    (c as int) % 256
  }

  function HeaderBytes(): (hb: seq<byte>)
    ensures |hb| == |HeaderString()|
  {
    var h := HeaderString();
    seq(|h|, i requires 0 <= i < |h| => CharByte(h[i]))
  }

  /** Every header character is ASCII, so each header byte is exactly its character's code. */
  lemma HeaderBytesAreText()
    ensures forall i :: 0 <= i < |HeaderString()| ==> HeaderBytes()[i] == HeaderString()[i] as int
  {
    var h := HeaderString();
    assert forall i :: 0 <= i < |h| ==> h[i] as int < 256;
  }

  // ---------------------------------------------------------------------
  // Raster

  /** The pixel bytes: red, green and blue of each pixel, pixel after pixel. */
  function Raster(image: seq<Pixel>): (bytes: seq<byte>)
    ensures |bytes| == 3 * |image|
  {
    if |image| == 0 then []
    else
      var last := image[|image| - 1];
      Raster(image[..|image| - 1]) + [last.r, last.g, last.b]
  }

  /** Pixel p occupies bytes 3p, 3p + 1 and 3p + 2 of the raster, in channel order. */
  lemma {:induction false} RasterLayout(image: seq<Pixel>, p: nat)
    requires p < |image|
    ensures Raster(image)[3 * p] == image[p].r
    ensures Raster(image)[3 * p + 1] == image[p].g
    ensures Raster(image)[3 * p + 2] == image[p].b
  {
    var front := image[..|image| - 1];
    if p < |image| - 1 {
      RasterLayout(front, p);
      assert Raster(image)[..3 * |front|] == Raster(front);
    }
  }

  /** One more pixel appends its three channels to the raster. */
  lemma RasterSnoc(prefix: seq<byte>, image: seq<Pixel>, n: nat)
    requires n < |image|
    ensures prefix + Raster(image[..n + 1]) == prefix + Raster(image[..n]) + [image[n].r, image[n].g, image[n].b]
  {
    assert image[..n + 1][..n] == image[..n];
  }

  /** Reading the raster back, three bytes per pixel. */
  function DecodeRaster(bytes: seq<byte>): (image: seq<Pixel>)
    requires |bytes| % 3 == 0
    ensures 3 * |image| == |bytes|
  {
    if |bytes| == 0 then []
    else DecodeRaster(bytes[..|bytes| - 3]) + [Pixel(bytes[|bytes| - 3], bytes[|bytes| - 2], bytes[|bytes| - 1])]
  }

  lemma RasterMod(image: seq<Pixel>)
    ensures |Raster(image)| % 3 == 0
  {
  }

  /** Three more bytes decode to one more pixel. */
  lemma DecodeRasterSnoc(bytes: seq<byte>, p: Pixel)
    requires |bytes| % 3 == 0
    ensures DecodeRaster(bytes + [p.r, p.g, p.b]) == DecodeRaster(bytes) + [p]
  {
    var longer := bytes + [p.r, p.g, p.b];
    assert longer[..|longer| - 3] == bytes;
  }

  /** The raster loses nothing: decoding it gives back the image. */
  lemma {:induction false} DecodeRasterInverts(image: seq<Pixel>)
    ensures DecodeRaster(Raster(image)) == image
  {
    if |image| > 0 {
      var front, last := image[..|image| - 1], image[|image| - 1];
      DecodeRasterInverts(front);
      RasterMod(front);
      assert Raster(image) == Raster(front) + [last.r, last.g, last.b];
      DecodeRasterSnoc(Raster(front), last);
      assert image == front + [last];
    }
  }

  /** Reading a file that must start with the header hb; the rest is the raster. */
  function DecodeWithHeader(hb: seq<byte>, file: seq<byte>): (image: Option<seq<Pixel>>)
    ensures image.Some? ==> |file| == |hb| + 3 * |image.value|
  {
    if |file| < |hb| || file[..|hb|] != hb || (|file| - |hb|) % 3 != 0 then None
    else Some(DecodeRaster(file[|hb|..]))
  }

  /** A header followed by a raster reads back as the raster's image, whatever the header. */
  lemma DecodeWithHeaderInverts(hb: seq<byte>, image: seq<Pixel>)
    ensures DecodeWithHeader(hb, hb + Raster(image)) == Some(image)
  {
    var raster := Raster(image);
    var file := hb + raster;
    assert file[..|hb|] == hb;
    assert file[|hb|..] == raster;
    DecodeRasterInverts(image);
  }

  /** Reading a whole file: the header must be the expected one, the rest is the raster. */
  function DecodePpm(file: seq<byte>): (image: Option<seq<Pixel>>)
    ensures image.Some? ==> |file| == |HeaderBytes()| + 3 * |image.value|
  {
    DecodeWithHeader(HeaderBytes(), file)
  }

  // ---------------------------------------------------------------------
  // make_ppm

  /** The header loop of `make_ppm`: character i of the header is stored as byte i. */
  method WriteHeader(buf: array<byte>, header: string)
    requires |header| <= buf.Length
    modifies buf
    ensures forall j :: 0 <= j < |header| ==> buf[j] == CharByte(header[j])
    ensures buf[|header|..] == old(buf[|header|..])
  {
    for i := 0 to |header|
      invariant forall j :: 0 <= j < i ==> buf[j] == CharByte(header[j])
      invariant buf[|header|..] == old(buf[|header|..])
    {
      buf[i] := CharByte(header[i]);
    }
  }

  /**
   * The pixel loop of `make_ppm`: from index start on, each pixel's red,
   * green and blue are stored through a running index, so the bytes before
   * start are followed by the raster and the bytes after it are untouched.
   */
  method WritePixels(buf: array<byte>, start: nat, image: seq<Pixel>)
    requires start + 3 * |image| <= buf.Length
    modifies buf
    ensures buf[..start + 3 * |image|] == old(buf[..start]) + Raster(image)
    ensures buf[start + 3 * |image|..] == old(buf[start + 3 * |image|..])
  {
    ghost var prefix := buf[..start];
    var idx := start;
    for pxl := 0 to |image|
      invariant idx == start + 3 * pxl
      invariant buf[..idx] == prefix + Raster(image[..pxl])
      invariant buf[start + 3 * |image|..] == old(buf[start + 3 * |image|..])
    {
      var p := image[pxl];
      ghost var before := buf[..];
      buf[idx] := p.r;
      idx := idx + 1;
      buf[idx] := p.g;
      idx := idx + 1;
      buf[idx] := p.b;
      idx := idx + 1;
      WritePixel(before, idx - 3, p, buf[..]);
      RasterSnoc(prefix, image, pxl);
    }
    assert image[..|image|] == image;
  }

  /**
   * `make_ppm`: a buffer of header size + 3 bytes per pixel, filled with the
   * header's characters and then with each pixel's three channels through a
   * running index.
   */
  method MakePpm(image: seq<Pixel>) returns (ppm: seq<byte>)
    requires |image| == PixelCount
    ensures |ppm| == |HeaderString()| + 3 * PixelCount
    ensures ppm == HeaderBytes() + Raster(image)
  {
    var header := HeaderString();
    var headerSize := |header|;
    var retval := new byte[headerSize + PixelCount * 3];
    WriteHeader(retval, header);
    assert retval[..headerSize] == HeaderBytes();
    WritePixels(retval, headerSize, image);
    assert retval[..] == retval[..headerSize + 3 * |image|];
    ppm := retval[..];
  }

  /** Writing a pixel's channels at idx, idx + 1 and idx + 2 extends the written prefix by them. */
  lemma WritePixel(before: seq<byte>, idx: nat, p: Pixel, after: seq<byte>)
    requires idx + 3 <= |before|
    requires after == before[idx := p.r][idx + 1 := p.g][idx + 2 := p.b]
    ensures after[..idx + 3] == before[..idx] + [p.r, p.g, p.b]
  {
  }

  /** The file `make_ppm` produces reads back as the image it was given. */
  lemma MakePpmDecodes(image: seq<Pixel>)
    ensures DecodePpm(HeaderBytes() + Raster(image)) == Some(image)
  {
    DecodeWithHeaderInverts(HeaderBytes(), image);
  }
}
