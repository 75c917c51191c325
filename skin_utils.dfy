/** Skin validation and the texture id of a skin (SkinUtils): a skin is a PNG below the
    size of a raw 64x64 RGBA bitmap, 64 pixels wide and 32 or 64 high; an opaque colour
    in its top-left corner is keyed out, and its id is a digest of its pixel bytes in
    which fully transparent pixels count as four zero bytes. */
module SkinUtils {
  import opened Common
  import opened Imaging
  import Paths

  /** The largest accepted size, exclusive: a raw 64x64 bitmap of 4-byte pixels. */
  const MaxFileSize: int := 64 * 64 * 4

  /** Foreign code the validator relies on: the PNG decoder (a failed decode gives the
      null image) and SHA-256 printed in hexadecimal. */
  datatype SkinCodec = SkinCodec(decodePng: seq<byte> -> Image, hexDigest: seq<byte> -> string)

  /** What the hash is fed for one pixel: R, G, B, A, or four zero bytes when A is 0. */
  function PixelBytes(p: Pixel): seq<byte> {
    if p.a == 0 then [0, 0, 0, 0] else [p.r, p.g, p.b, p.a]
  }

  /** The whole byte stream of hashSkin, for pixels in column-major order (x outer,
      y inner, the order of the stored pixels). */
  function HashInput(pixels: seq<Pixel>): (bs: seq<byte>)
    ensures |bs| == 4 * |pixels|
  {
    if pixels == [] then [] else HashInput(pixels[..|pixels| - 1]) + PixelBytes(pixels[|pixels| - 1])
  }

  /** The four bytes at position 4i of the stream are those of pixel i. */
  lemma {:induction false} HashInputAt(pixels: seq<Pixel>, i: nat)
    requires i < |pixels|
    ensures HashInput(pixels)[4 * i..4 * i + 4] == PixelBytes(pixels[i])
  {
    var n := |pixels| - 1;
    if i < n {
      HashInputAt(pixels[..n], i);
      assert pixels[..n][i] == pixels[i];
      assert HashInput(pixels)[..4 * n] == HashInput(pixels[..n]);
    }
  }

  /** Images that differ only in the colour of fully transparent pixels hash alike. */
  lemma {:induction false} HashIgnoresHiddenColour(p: seq<Pixel>, q: seq<Pixel>)
    requires |p| == |q|
    requires forall i :: 0 <= i < |p| ==> p[i] == q[i] || (p[i].a == 0 && q[i].a == 0)
    ensures HashInput(p) == HashInput(q)
  {
    if p != [] {
      var n := |p| - 1;
      HashIgnoresHiddenColour(p[..n], q[..n]);
      assert PixelBytes(p[n]) == PixelBytes(q[n]);
    }
  }

  /** Conversely, equal streams of equal length mean equal visible pixels: every pixel
      that is not fully transparent in one image is the same pixel in the other. */
  lemma HashDeterminesVisiblePixels(p: seq<Pixel>, q: seq<Pixel>)
    requires |p| == |q| && HashInput(p) == HashInput(q)
    ensures forall i :: 0 <= i < |p| && p[i].a != 0 ==> q[i] == p[i]
  {
    forall i | 0 <= i < |p| && p[i].a != 0
      ensures q[i] == p[i]
    {
      HashInputAt(p, i);
      HashInputAt(q, i);
      assert PixelBytes(p[i]) == PixelBytes(q[i]);
    }
  }

  /** hashSkin: the pixel bytes of every column, top to bottom, go to the digest. */
  method HashSkin(image: Image, codec: SkinCodec) returns (textureID: string)
    ensures textureID == codec.hexDigest(HashInput(Pixels(image)))
  {
    var fed: seq<byte> := [];
    var w, h := Width(image), Height(image);
    var pixels := Pixels(image);
    var x := 0;
    while x < w
      invariant 0 <= x <= w
      invariant x * h <= |pixels|
      invariant fed == HashInput(pixels[..x * h])
    {
      var y := 0;
      while y < h
        invariant 0 <= y <= h
        invariant x * h + y <= |pixels|
        invariant fed == HashInput(pixels[..x * h + y])
      {
        var pixel := PixelAt(image, x, y);
        MulBound(x, y, w, h);
        assert pixels[..x * h + y + 1] == pixels[..x * h + y] + [pixel];
        fed := fed + PixelBytes(pixel);
        y := y + 1;
      }
      assert x * h + h == (x + 1) * h;
      x := x + 1;
    }
    assert pixels[..w * h] == pixels;
    textureID := codec.hexDigest(fed);
  }

  /** createMaskFromColor(colour, MaskOutColor) applied with setAlphaChannel: pixels of
      exactly that colour become fully transparent, every other pixel is kept. */
  function MaskOut(pixels: seq<Pixel>, colour: Pixel): seq<Pixel> {
    seq(|pixels|, i requires 0 <= i < |pixels| => if pixels[i] == colour then pixels[i].(a := 0) else pixels[i])
  }

  /** The corner colour keyed out of an image, if its top-left pixel is opaque. */
  function KeyedImage(img: Image): (k: Image)
    requires Width(img) > 0 && Height(img) > 0
    ensures Width(k) == Width(img) && Height(k) == Height(img)
    ensures PixelAt(img, 0, 0).a != 255 ==> k == img
  {
    var corner := PixelAt(img, 0, 0);
    if corner.a == 255 then Bitmap(img.width, img.height, MaskOut(img.pixels, corner)) else img
  }

  /** With an opaque corner, exactly the pixels of the corner colour and those already
      transparent are transparent after keying; no other pixel changes. */
  lemma KeyedImageMasksCorner(img: Image)
    requires Width(img) > 0 && Height(img) > 0 && PixelAt(img, 0, 0).a == 255
    ensures |Pixels(KeyedImage(img))| == |Pixels(img)|
    ensures forall i :: 0 <= i < |Pixels(img)| ==>
      (Pixels(KeyedImage(img))[i].a == 0 <==> Pixels(img)[i] == PixelAt(img, 0, 0) || Pixels(img)[i].a == 0)
    ensures forall i :: 0 <= i < |Pixels(img)| && Pixels(img)[i] != PixelAt(img, 0, 0) ==>
      Pixels(KeyedImage(img))[i] == Pixels(img)[i]
  {
  }

  /** A skin that passed validation: the keyed image and its texture id. */
  datatype SkinRead = SkinRead(image: Image, textureID: string)

  /** What readSkinFromData makes of `data`. */
  function SkinFromData(data: seq<byte>, codec: SkinCodec): (r: Option<SkinRead>)
    ensures r.Some? <==>
      |data| < MaxFileSize && Width(codec.decodePng(data)) == 64 &&
      (Height(codec.decodePng(data)) == 32 || Height(codec.decodePng(data)) == 64)
    ensures r.Some? ==>
      r.value.image == KeyedImage(codec.decodePng(data)) &&
      r.value.textureID == codec.hexDigest(HashInput(Pixels(r.value.image)))
  {
    if |data| >= MaxFileSize then None
    else
      var img := codec.decodePng(data);
      if Width(img) != 64 then None
      else if Height(img) != 32 && Height(img) != 64 then None
      else
        var keyed := KeyedImage(img);
        Some(SkinRead(keyed, codec.hexDigest(HashInput(Pixels(keyed)))))
  }

  /** readSkinFromData. */
  method ReadSkinFromData(data: seq<byte>, codec: SkinCodec) returns (result: Option<SkinRead>)
    ensures result == SkinFromData(data, codec)
  {
    if |data| >= MaxFileSize {
      return None;
    }
    var img := codec.decodePng(data);
    if Width(img) != 64 {
      return None;
    }
    var height := Height(img);
    if height != 32 && height != 64 {
      return None;
    }
    var keyed := KeyedImage(img);
    var textureID := HashSkin(keyed, codec);
    return Some(SkinRead(keyed, textureID));
  }

  /** Two accepted skins whose decoded images differ only in the colour of pixels that
      are transparent in both get the same texture id. */
  lemma SameVisibleSkinSameId(d1: seq<byte>, d2: seq<byte>, codec: SkinCodec)
    requires SkinFromData(d1, codec).Some? && SkinFromData(d2, codec).Some?
    requires var i1, i2 := SkinFromData(d1, codec).value.image, SkinFromData(d2, codec).value.image;
      |Pixels(i1)| == |Pixels(i2)| &&
      forall i :: 0 <= i < |Pixels(i1)| ==> Pixels(i1)[i] == Pixels(i2)[i] || (Pixels(i1)[i].a == 0 && Pixels(i2)[i].a == 0)
    ensures SkinFromData(d1, codec).value.textureID == SkinFromData(d2, codec).value.textureID
  {
    var i1, i2 := SkinFromData(d1, codec).value.image, SkinFromData(d2, codec).value.image;
    HashIgnoresHiddenColour(Pixels(i1), Pixels(i2));
  }

  /** What the file system reports about a path: whether it is a regular file, its size,
      and its contents (None when reading fails). */
  datatype FileFacts = FileFacts(isFile: bool, size: int, contents: Option<seq<byte>>)

  /** A skin file that passed validation. */
  datatype SkinFile = SkinFile(data: seq<byte>, image: Image, textureID: string)

  /** The checks of readSkinFromFile before the data is validated. */
  predicate FileAcceptable(path: string, fs: map<string, FileFacts>) {
    path in fs && fs[path].isFile && ToLower(Paths.Suffix(path)) == "png" &&
    fs[path].size < MaxFileSize && fs[path].contents.Some?
  }

  /** What readSkinFromFile accepts from `path`. */
  function SkinFromFile(path: string, fs: map<string, FileFacts>, codec: SkinCodec): (r: Option<SkinFile>)
    ensures r.Some? ==> path in fs && fs[path].contents == Some(r.value.data)
  {
    if !FileAcceptable(path, fs) then None
    else
      var data := fs[path].contents.value;
      match SkinFromData(data, codec)
      case None => None
      case Some(read) => Some(SkinFile(data, read.image, read.textureID))
  }

  /** A file is accepted iff it is a regular file with a "png" suffix in any letter case,
      smaller than the limit and readable, and its contents validate as a skin; what is
      accepted is those contents, the keyed image and its id. */
  lemma SkinFromFileAccepts(path: string, fs: map<string, FileFacts>, codec: SkinCodec)
    ensures SkinFromFile(path, fs, codec).Some? <==>
      path in fs && fs[path].isFile && ToLower(Paths.Suffix(path)) == "png" && fs[path].size < MaxFileSize &&
      fs[path].contents.Some? && SkinFromData(fs[path].contents.value, codec).Some?
    ensures SkinFromFile(path, fs, codec).Some? ==>
      var r := SkinFromFile(path, fs, codec).value;
      var read := SkinFromData(r.data, codec).value;
      |r.data| < MaxFileSize && r.image == read.image && r.textureID == read.textureID
  {
  }

  /** readSkinFromFile: the key is the complete base name of the path, on success and on
      failure alike. */
  method ReadSkinFromFile(path: string, fs: map<string, FileFacts>, codec: SkinCodec)
    returns (key: string, result: Option<SkinFile>)
    ensures key == Paths.CompleteBaseName(path)
    ensures result == SkinFromFile(path, fs, codec)
  {
    key := Paths.CompleteBaseName(path);
    if path !in fs || !fs[path].isFile {
      return key, None;
    }
    if ToLower(Paths.Suffix(path)) != "png" {
      return key, None;
    }
    if fs[path].size >= MaxFileSize {
      return key, None;
    }
    if fs[path].contents.None? {
      return key, None;
    }
    var data := fs[path].contents.value;
    var read := ReadSkinFromData(data, codec);
    if read.None? {
      return key, None;
    }
    return key, Some(SkinFile(data, read.value.image, read.value.textureID));
  }
}
