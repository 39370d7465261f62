/**
 The image adapter: turning a decoded raster image into a texture, and a
 four-channel texture into a single-entry asset bundle holding its PNG
 encoding. The codec itself (format sniffing, decoding, the image-buffer
 fit check, PNG writing) is outside the model: its results arrive as
 parameters.
 */
module Img {
  import opened Results
  import opened Texture
  import opened Pixels

  /** The layouts a decoded image can have. */
  datatype ColorLayout =
    | Luma8 | LumaA8 | Rgb8 | Rgba8
    | Luma16 | LumaA16 | Rgb16 | Rgba16
    | Rgb32F | Rgba32F

  /** A decoded image as the codec hands it over: layout, dimensions and interleaved sample bytes. */
  datatype DynamicImage = DynamicImage(layout: ColorLayout, width: U32, height: U32, bytes: seq<Byte>)

  /** The codec's error kinds. */
  datatype ImageError = Decoding | Encoding | Parameter | Limits | Unsupported | IoError

  /** Why a call aborted: `unimplemented!()`, or `unwrap()` of a `None`. */
  datatype Panic = Unimplemented | UnwrapOnNone

  /** How a call fails: an error propagated with `?`, or a panic. */
  datatype Fault = Returned(error: ImageError) | Panicked(panic: Panic)

  type Path = string

  /** An asset bundle: logical path to encoded bytes. */
  type RawAssets = map<Path, seq<Byte>>

  /** The layouts the decoder turns into textures. */
  predicate Supported(layout: ColorLayout)
  {
    layout.Luma8? || layout.LumaA8? || layout.Rgb8? || layout.Rgba8?
  }

  /** Bytes per pixel of a supported layout. */
  function LayoutChannels(layout: ColorLayout): (n: nat)
    requires Supported(layout)
    ensures 1 <= n <= 4
  {
    match layout
    case Luma8 => 1
    case LumaA8 => 2
    case Rgb8 => 3
    case Rgba8 => 4
  }

  /**
   The texture a decode outcome yields: a decode error is passed on, the
   four 8-bit layouts become the texture variant of the same arity with
   the image's dimensions, and every other layout aborts.
   */
  function Deserialized(decoded: Result<DynamicImage, ImageError>): (r: Result<Texture2D, Fault>)
    ensures decoded.Failure? ==> r == Failure(Returned(decoded.error))
    ensures decoded.Success? && !Supported(decoded.value.layout) ==> r == Failure(Panicked(Unimplemented))
    ensures r.Success? <==> decoded.Success? && Supported(decoded.value.layout)
    ensures r.Success? ==> r.value.width == decoded.value.width && r.value.height == decoded.value.height
    ensures r.Success? && r.value.data.RU8? <==> decoded.Success? && decoded.value.layout == Luma8
    ensures r.Success? && r.value.data.RgU8? <==> decoded.Success? && decoded.value.layout == LumaA8
    ensures r.Success? && r.value.data.RgbU8? <==> decoded.Success? && decoded.value.layout == Rgb8
    ensures r.Success? && r.value.data.RgbaU8? <==> decoded.Success? && decoded.value.layout == Rgba8
    ensures r.Success? && r.value.data.RU8? ==> r.value.data.r == decoded.value.bytes
    ensures r.Success? ==> PixelCount(r.value.data) == |decoded.value.bytes| / Channels(r.value.data)
  {
    match decoded
    case Failure(e) => Failure(Returned(e))
    case Success(img) =>
      match img.layout
      case Luma8 => Success(Texture2D(RU8(img.bytes), img.width, img.height))
      case LumaA8 => Success(Texture2D(RgU8(Regroup(img.bytes, 2)), img.width, img.height))
      case Rgb8 => Success(Texture2D(RgbU8(Regroup(img.bytes, 3)), img.width, img.height))
      case Rgba8 => Success(Texture2D(RgbaU8(Regroup(img.bytes, 4)), img.width, img.height))
      case _ => Failure(Panicked(Unimplemented))
  }

  /** Decoding, with each multi-channel layout regrouped by the pushing loop. */
  method Deserialize(decoded: Result<DynamicImage, ImageError>) returns (r: Result<Texture2D, Fault>)
    ensures r == Deserialized(decoded)
  {
    if decoded.Failure? {
      return Failure(Returned(decoded.error));
    }
    var img := decoded.value;
    var data: TextureData;
    match img.layout {
      case Luma8 =>
        data := RU8(img.bytes);
      case LumaA8 =>
        var pixels := GroupPixels(img.bytes, 2);
        data := RgU8(pixels);
      case Rgb8 =>
        var pixels := GroupPixels(img.bytes, 3);
        data := RgbU8(pixels);
      case Rgba8 =>
        var pixels := GroupPixels(img.bytes, 4);
        data := RgbaU8(pixels);
      case _ =>
        return Failure(Panicked(Unimplemented));
    }
    r := Success(Texture2D(data, img.width, img.height));
  }

  /**
   Tuple `i` of a decoded texture holds the `n` bytes at offset `i * n` of
   the decoded run, `n` being the layout's channel count.
   */
  lemma DeserializedTupleAt(img: DynamicImage, i: nat)
    requires Supported(img.layout)
    requires i < |img.bytes| / LayoutChannels(img.layout)
    ensures Deserialized(Success(img)).Success?
    ensures i * LayoutChannels(img.layout) + LayoutChannels(img.layout) <= |img.bytes|
    ensures U8Tuples(Deserialized(Success(img)).value.data)[i]
         == img.bytes[i * LayoutChannels(img.layout) .. i * LayoutChannels(img.layout) + LayoutChannels(img.layout)]
  {
    var n := LayoutChannels(img.layout);
    RegroupAt(img.bytes, n, i);
  }

  /**
   A decoded image whose run holds exactly one tuple per pixel yields a
   texture with one tuple per pixel.
   */
  lemma DeserializedWellSized(img: DynamicImage)
    requires Supported(img.layout)
    requires |img.bytes| == img.width * img.height * LayoutChannels(img.layout)
    ensures Deserialized(Success(img)).Success?
    ensures WellSized(Deserialized(Success(img)).value)
  {
    var n := LayoutChannels(img.layout);
    DivUnique(|img.bytes|, n, img.width * img.height, 0);
  }

  /**
   Laid end to end again, a decoded texture's tuples are the decoded run
   without its last `|bytes| % n` bytes: a tail too short for a whole
   tuple is dropped, and nothing else is.
   */
  lemma DeserializedDropsTail(img: DynamicImage)
    requires Supported(img.layout)
    ensures Deserialized(Success(img)).Success?
    ensures Flatten(U8Tuples(Deserialized(Success(img)).value.data))
         == img.bytes[..|img.bytes| - |img.bytes| % LayoutChannels(img.layout)]
  {
    var n := LayoutChannels(img.layout);
    var tuples := U8Tuples(Deserialized(Success(img)).value.data);
    if img.layout == Luma8 {
      forall i | 0 <= i < |tuples|
        ensures tuples[i] == Regroup(img.bytes, 1)[i]
      {
        RegroupAt(img.bytes, 1, i);
      }
    }
    assert tuples == Regroup(img.bytes, n);
    FlattenRegroup(img.bytes, n);
  }

  /**
   Flattening four-channel tuples: byte `4 * i + j` is component `j` of
   tuple `i`. This is the n = 4 case of `FlattenLength` and `FlattenAt`,
   stated with a literal multiplier for the encoder's image.
   */
  lemma FlattenRgba(pixels: seq<Rgba>)
    ensures |Flatten(pixels)| == 4 * |pixels|
    ensures forall i, j :: 0 <= i < |pixels| && 0 <= j < 4 ==> Flatten(pixels)[4 * i + j] == pixels[i][j]
  {
    FlattenLength(pixels, 4);
    forall i, j | 0 <= i < |pixels| && 0 <= j < 4
      ensures Flatten(pixels)[4 * i + j] == pixels[i][j]
    {
      FlattenAt(pixels, 4, i, j);
    }
  }

  /** The four-channel image the encoder is given: the texture's dimensions over its flattened tuples. */
  function RgbaImage(width: U32, height: U32, pixels: seq<Rgba>): (img: DynamicImage)
    ensures img.layout == Rgba8 && img.width == width && img.height == height
    ensures |img.bytes| == 4 * |pixels|
    ensures forall i, j :: 0 <= i < |pixels| && 0 <= j < 4 ==> img.bytes[4 * i + j] == pixels[i][j]
  {
    FlattenRgba(pixels);
    DynamicImage(Rgba8, width, height, Flatten(pixels))
  }

  /**
   Encoding a texture. Only four-channel 8-bit data is accepted; any other
   variant aborts. Building the image buffer is unwrapped, so a buffer the
   codec's fit check rejects aborts too; an encoder error is passed on. On
   success the bundle has one entry, under `path`, holding the PNG bytes.
   */
  function Serialized(tex: Texture2D, path: Path, fits: (U32, U32, nat) -> bool,
                      encodePng: DynamicImage -> Result<seq<Byte>, ImageError>): (r: Result<RawAssets, Fault>)
    ensures !tex.data.RgbaU8? ==> r == Failure(Panicked(Unimplemented))
    ensures tex.data.RgbaU8? && !fits(tex.width, tex.height, 4 * |tex.data.rgba|) ==> r == Failure(Panicked(UnwrapOnNone))
    ensures r.Success? <==> (tex.data.RgbaU8? && fits(tex.width, tex.height, 4 * |tex.data.rgba|)
                             && encodePng(RgbaImage(tex.width, tex.height, tex.data.rgba)).Success?)
    ensures r.Success? ==> r.value.Keys == {path}
                           && r.value[path] == encodePng(RgbaImage(tex.width, tex.height, tex.data.rgba)).value
    ensures r.Failure? && r.error.Returned? ==> r.error.error == encodePng(RgbaImage(tex.width, tex.height, tex.data.rgba)).error
    ensures tex.data.RgbaU8? && fits(tex.width, tex.height, 4 * |tex.data.rgba|)
            && encodePng(RgbaImage(tex.width, tex.height, tex.data.rgba)).Failure?
            ==> r == Failure(Returned(encodePng(RgbaImage(tex.width, tex.height, tex.data.rgba)).error))
  {
    match tex.data
    case RgbaU8(pixels) =>
      var img := RgbaImage(tex.width, tex.height, pixels);
      if !fits(img.width, img.height, |img.bytes|) then Failure(Panicked(UnwrapOnNone))
      else
        (match encodePng(img)
         case Failure(e) => Failure(Returned(e))
         case Success(png) => Success(map[][path := png]))
    case _ => Failure(Panicked(Unimplemented))
  }

  /** The PNG codec reproduces every exactly-sized four-channel image it encodes. */
  ghost predicate Lossless(encodePng: DynamicImage -> Result<seq<Byte>, ImageError>,
                           decodePng: seq<Byte> -> Result<DynamicImage, ImageError>)
  {
    forall img: DynamicImage ::
      img.layout == Rgba8 && |img.bytes| == img.width * img.height * 4 && encodePng(img).Success? ==>
        decodePng(encodePng(img).value) == Success(img)
  }

  /**
   Round trip: over a lossless codec, decoding the bundle entry that
   encoding a well-sized texture produced gives the texture back.
   */
  lemma SerializeRoundTrip(tex: Texture2D, path: Path, fits: (U32, U32, nat) -> bool,
                           encodePng: DynamicImage -> Result<seq<Byte>, ImageError>,
                           decodePng: seq<Byte> -> Result<DynamicImage, ImageError>)
    requires Lossless(encodePng, decodePng)
    requires WellSized(tex)
    requires Serialized(tex, path, fits, encodePng).Success?
    ensures Deserialized(decodePng(Serialized(tex, path, fits, encodePng).value[path])) == Success(tex)
  {
    var pixels := tex.data.rgba;
    var img := RgbaImage(tex.width, tex.height, pixels);
    assert |img.bytes| == img.width * img.height * 4;
    assert decodePng(encodePng(img).value) == Success(img);
    RegroupFlatten(pixels, 4);
  }

  /** The 2x2 test picture: black, red, green and blue pixels in row-major order. */
  function TestPixels(): seq<Rgba>
  {
    [[0, 0, 0, 255], [255, 0, 0, 255], [0, 255, 0, 255], [0, 0, 255, 255]]
  }

  function TestBytes(): seq<Byte>
  {
    [0, 0, 0, 255, 255, 0, 0, 255, 0, 255, 0, 255, 0, 0, 255, 255]
  }

  /** Decoding the 2x2 four-channel test image gives its four pixels and its dimensions. */
  lemma DeserializeTestImage()
    ensures Deserialized(Success(DynamicImage(Rgba8, 2, 2, TestBytes())))
         == Success(Texture2D(RgbaU8(TestPixels()), 2, 2))
  {
    var bytes := TestBytes();
    assert bytes == Flatten(TestPixels()) by {
      FlattenRgba(TestPixels());
    }
    RegroupFlatten(TestPixels(), 4);
  }

  /**
   Encoding the 2x2 test texture hands the encoder the test image's bytes
   and, when the buffer fits and the encoder succeeds, yields a bundle whose
   only entry, "test.png", is the encoder's output.
   */
  lemma SerializeTestTexture(fits: (U32, U32, nat) -> bool,
                             encodePng: DynamicImage -> Result<seq<Byte>, ImageError>, png: seq<Byte>)
    requires fits(2, 2, 16)
    requires encodePng(DynamicImage(Rgba8, 2, 2, TestBytes())) == Success(png)
    ensures RgbaImage(2, 2, TestPixels()) == DynamicImage(Rgba8, 2, 2, TestBytes())
    ensures Serialized(Texture2D(RgbaU8(TestPixels()), 2, 2), "test.png", fits, encodePng)
         == Success(map["test.png" := png])
  {
    var img := RgbaImage(2, 2, TestPixels());
    assert img.bytes == TestBytes();
  }
}
