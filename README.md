# Image adapter of three-d-asset, modelled in Dafny

This project models the pixel-layout adapter of the `three-d-asset` crate:
the code around the external `image` codec that turns a decoded raster
image into a `Texture2D`, and a four-channel `Texture2D` back into a
single-entry asset bundle holding its PNG encoding.

- `results.dfy` (`Results`): the success/failure datatype.
- `texture.dfy` (`Texture`): `Byte` and `U32` as bounded integers, the
  fixed-arity pixel tuples `Rg`, `Rgb`, `Rgba` (sequences of length 2, 3,
  4), the `TextureData` tagged union (`RU8`, `RgU8`, `RgbU8`, `RgbaU8`,
  `RgbF32`), `Texture2D` with its data, width and height, and the
  "one tuple per pixel" predicate `WellSized`.
- `pixels.dfy` (`Pixels`): `Regroup` (cut an interleaved byte run into
  `n`-byte tuples, dropping an incomplete tail), `Flatten` (lay tuples end
  to end), the loop method `GroupPixels` that the decoder runs, and the
  lemmas relating them.
- `img.dfy` (`Img`): the decoded image (`DynamicImage`: layout tag, width,
  height, bytes), the codec's error kinds, how a call fails (an error
  passed on with `?`, or a panic from `unimplemented!()` or `unwrap()`),
  decoding (`Deserialized` and the method `Deserialize`), encoding
  (`Serialized`), the round trip and the two test scenarios.

The codec is not modelled. Its decode outcome is an input of
`Deserialize`. The image-buffer fit check of `ImageBuffer::from_raw` and
the PNG writer are function parameters of `Serialized`. The round trip is
proved for any codec that satisfies `Lossless`.

Two behaviours of the code a caller might not expect:
- Unsupported layouts (in both directions) and a buffer the fit check
  rejects abort the call with a panic. They are not returned as errors.
  The model keeps the two apart: `Failure(Panicked(..))` for a panic and
  `Failure(Returned(..))` for an error passed on with `?`.
- The regrouping loops run `len / n` times. A byte run whose length is
  not a multiple of the channel count is not rejected: its last
  `len % n` bytes are dropped (`Pixels.FlattenRegroup`,
  `Img.DeserializedDropsTail`).

## Model

| member | source | states |
|---|---|---|
| `Pixels.Regroup` | src/io/img.rs:38-39 | regrouping by `n` yields exactly `len / n` tuples, each of `n` bytes |
| `Pixels.GroupPixels` | src/io/img.rs:37-61 | the push loop (run with n = 2, 3, 4 by the three branches) returns exactly `Regroup(bytes, n)`, of length `len / n` |
| `Pixels.RegroupAt` | src/io/img.rs:54-60 | tuple `i` of a regrouped run is the `n` bytes at offsets `i*n .. i*n+n-1`, all in range |
| `Pixels.FlattenLength` | src/io/img.rs:80 | flattening `k` tuples of `n` components gives `n*k` bytes |
| `Pixels.FlattenAt` | src/io/img.rs:80 | byte `i*n + j` of the flattened run is component `j` of tuple `i` |
| `Pixels.RegroupFlatten` | src/io/img.rs:80 | regrouping a flattened run of `n`-tuples by `n` returns the original tuple list |
| `Pixels.FlattenRegroup` | src/io/img.rs:54 | flattening a regrouped run gives the run minus its last `len % n` bytes |
| `Pixels.FlattenRegroupExact` | src/io/img.rs:54 | when `len` is a multiple of `n`, flattening the regrouped run gives back every byte |
| `Img.Deserialized` | src/io/img.rs:30-71 | a decode error is passed on; Luma8, LumaA8, Rgb8, Rgba8 map to RU8, RgU8, RgbU8, RgbaU8 respectively (each an if-and-only-if); any other layout aborts with `unimplemented`; width and height are the decoded image's; Luma8 bytes pass through unchanged; the tuple count is `len / channels` |
| `Img.Deserialize` | src/io/img.rs:33-65 | the dispatch with the pushing loops gives exactly the outcome `Deserialized` describes |
| `Img.DeserializedTupleAt` | src/io/img.rs:34-62 | tuple `i` of a decoded texture is the `n` decoded bytes at offset `i*n`, `n` being the layout's channel count |
| `Img.DeserializedWellSized` | src/io/img.rs:31-71 | a decoded run of exactly `width*height*n` bytes yields a texture with one tuple per pixel |
| `Img.DeserializedDropsTail` | src/io/img.rs:36-61 | the decoded texture's tuples, laid end to end, are the decoded run without its last `len % n` bytes |
| `Img.FlattenRgba` | src/io/img.rs:80 | flattened RGBA tuples form `4*k` bytes, byte `4i+j` being component `j` of tuple `i` |
| `Img.RgbaImage` | src/io/img.rs:76-81 | the image handed to the encoder is Rgba8, has the texture's width and height, and holds the flattened tuples |
| `Img.Serialized` | src/io/img.rs:74-91 | any variant but RgbaU8 aborts with `unimplemented`; a rejected fit aborts the `unwrap`; an encoder error on a fitting buffer comes back as that same returned error, and a returned error is always the encoder's; success happens exactly when the data is RgbaU8, the fit holds and the encoder succeeds, and then the bundle has the single key `path` holding the encoder's output |
| `Img.SerializeRoundTrip` | src/io/img.rs:75-89 | over a lossless codec, decoding the bundle entry produced by encoding a well-sized texture gives the texture back |
| `Img.DeserializeTestImage` | src/io/img.rs:104-118 | decoding the 2x2 Rgba8 image of bytes `0,0,0,255, 255,0,0,255, 0,255,0,255, 0,0,255,255` gives the four tuples black, red, green, blue with width 2 and height 2 |
| `Img.SerializeTestTexture` | src/io/img.rs:124-135 | encoding that 2x2 texture hands the encoder exactly those 16 bytes; on a fitting buffer and a successful encoder, the bundle is the single entry "test.png" holding its output |

## Left out

- Format sniffing (`Reader::with_guessed_format` and its `expect`) and the call to `reader.decode()`: they are codec calls. The decode outcome is an input of `Deserialize`.
- The HDR branch (src/io/img.rs:10-29): it relies on the codec's Radiance decoder, and its RGBE to f32 conversion is floating point. `RgbF32` tuples are kept only as opaque 32-bit patterns, so that `Serialized` can reject them.
- The PNG writer (`write_to`) and the fit check inside `ImageBuffer::from_raw`: they belong to the codec. They are the parameters `encodePng` and `fits`. Nothing is assumed about them except the `Lossless` premise of the round trip.
- The byte-identical PNG comparison in the serialize test (src/io/img.rs:137-140): it depends on the encoder's exact output.
- `RawAssets` storage and the `deserialize`/`serialize` trait plumbing used by the tests: the bundle is a `map` from path to bytes, built by a single insertion into an empty map.
- The other fields of `Texture2D` (name, filters, wrapping): decoding fills them with defaults. The texture module is not part of this model.
- Other `TextureData` variants of the texture module (16-bit and float layouts beyond `RgbF32`): they are not part of this model. Every non-RgbaU8 variant takes the same abort path in `serialize_img`.
- The codec's layout list (`ColorLayout`) names the 8-bit, 16-bit and float layouts. Every layout other than the four 8-bit ones takes the same abort path, so which ones the codec's version offers does not matter.
- `Pixels.GroupPixels`: one loop parameterised by the tuple size stands for the three loops of the source. Each source loop writes its tuple as `n` separate indexed reads; the model takes the slice `bytes[i*n .. i*n+n]`, which `Pixels.RegroupAt` relates to those indices.
- src/volume.rs: `VoxelGrid` is a passive record whose only behaviour is a `Default` with a float size. It has no algorithm to model.
