# constexpr ray tracer: random stream, scene search, renderer and PPM writer

A Dafny model of the integer- and byte-level core of a compile-time
(`constexpr`) C++ ray tracer. The tracer renders a scene of spheres into a
640×480 image. It shoots a grid of sample rays through every pixel, lets
each ray bounce off the objects it hits until it escapes or a depth limit
is reached, and writes the result as a binary PPM file. There is no global
state. The random generator is a value that every draw takes and returns,
and one such state is threaded through the whole image.

The model has six modules, one file each:

- `Random` (`random.dfy`, from `include/random.hpp`) models the following:
  - the xorshift64 transition `next` (Marsaglia's shift triple 13, 7, 17) on `bv64`, with its inverse;
  - `uniform_12` as the IEEE 754 binary64 bit pattern it builds, with the value that pattern encodes;
  - `uniform_01` as the exact fraction f / 2^52;
  - the rejection loop of `uniform_on_sphere_surface`, with the acceptance test kept abstract.
- `World` (`world.dfy`, from `include/world.hpp`) models `make_world` and the scene query `collides`. The per-shape intersection test is a parameter.
- `Image` (`image.dfy`) holds the pixel type (`struct pixel`, `include/color.hpp`) and the image size (`src/config.hpp`), and the row-major numbering of pixels and of samples inside a pixel.
- `Render` (`render.dfy`, from `src/main.cpp`) models the control flow of `ray_color` and the nested loops of `make_image`. Colours, scattering, the camera and the background stay abstract.
- `Ppm` (`ppm.dfy`, from `src/main.cpp`) models `make_ppm`, the fill of a byte buffer with the header and then three bytes per pixel, and a decoder that reads the file back. The two loops of `make_ppm` are the methods `WriteHeader` and `WritePixels`, which `MakePpm` calls in order on the buffer it allocates.
- `Wrappers` (`wrappers.dfy`) holds `Option`, the counterpart of `std::optional`.

Notes on the code as written:

- `collides` (`include/world.hpp:32-41`) returns the first object in array order whose test reports a hit. It does not return the nearest hit along the ray, which is what a scene resolver of a ray tracer is meant to return. The model follows the code: `World.FirstHitIndex` is the first hit, and its contract says so.
- `include/random.hpp:32` lacks its terminating semicolon.
- `uniform_on_sphere_surface` is declared to return `double` (`include/random.hpp:42`) but returns a (vector, state) pair (`include/random.hpp:54`). The model returns the pair.
- `ray_color` passes four arguments to `scatter` (`src/main.cpp:39`), while `scatter` takes three: the collision, the material and the state (`include/material.hpp:16`). The model's `scatter` takes those three.
- `ray_color` reads `obj.attenuation` (`src/main.cpp:43`), a member that `object` lacks. The model has an abstract `attenuate` of the colour by the object.
- `RAYTRACE_RECURSION_LIMIT` and `SAMPLES_PER_PIXEL_SQRT` are not defined in `src/config.hpp`. They are parameters here: `Tracer.limit` and `Sampler.samplesSqrt`.

## Model

| member | source | states |
|---|---|---|
| `Random.Next` | include/random.hpp:14-21 | applies x ^= x << 13, then x ^= x >> 7, then x ^= x << 17 to the state and returns it; the result is `NextState(curr)`, and running the inverse steps backwards on it gives back `curr` |
| `Random.PrevNextInverse` | include/random.hpp:16-20 | the transition is a bijection of the 2^64 states: `PrevState` undoes `NextState` and `NextState` undoes `PrevState` |
| `Random.UndoShl13Inverts` | include/random.hpp:17 | the step x ^= x << 13 is inverted on both sides by xoring in the shifts by 13, 26, 39 and 52 |
| `Random.UndoShr7Inverts` | include/random.hpp:18 | the step x ^= x >> 7 is inverted on both sides by xoring in every multiple of 7 up to 63 |
| `Random.UndoShl17Inverts` | include/random.hpp:19 | the step x ^= x << 17 is inverted on both sides by xoring in the shifts by 17, 34 and 51 |
| `Random.NextInjective` | include/random.hpp:14-21 | two states have the same successor if and only if they are equal |
| `Random.ZeroIsOnlyFixedZero` | include/random.hpp:16-20 | state 0 maps to 0, and a state maps to 0 if and only if it is 0 |
| `Random.NextNAdd` | include/random.hpp:14-21 | a transitions followed by b transitions are a + b transitions |
| `Random.NextNNonZero` | include/random.hpp:14-21 | a non-zero seed never reaches the zero state, however many transitions follow |
| `Random.OnStreamTrans` | include/random.hpp:14-21 | a state reached from a state reached from a is itself reached from a |
| `Random.PatternAddIsOr` | include/random.hpp:29-32 | adding the exponent constant to the masked word adds no carry: the sum equals the bitwise or |
| `Random.PatternFields` | include/random.hpp:29-32 | the sum of the exponent constant and the low 52 bits of any word has sign 0, biased exponent 1023 and that word's low 52 bits as its fraction |
| `Random.Uniform12` | include/random.hpp:23-35 | returns the state `next(rng)`, so it advances exactly once, and a pattern with sign 0, biased exponent 1023 and fraction equal to the low 52 bits of that new state |
| `Random.OneToTwo` | include/random.hpp:32-34 | the value 1.f of the pattern lies in [1, 2) |
| `Random.OneToTwoValue` | include/random.hpp:31-34 | a pattern with sign 0 and biased exponent 1023 is a normal number whose binary64 value is 1 + f / 2^52 |
| `Random.Uniform12Value` | include/random.hpp:23-35 | the pattern `uniform_12` returns is normal and encodes 1 + f / 2^52, where f is the low 52 bits of `next(rng)` |
| `Random.FractionValue` | include/random.hpp:30 | the fraction f / 2^52 lies in [0, 1) |
| `Random.Uniform01` | include/random.hpp:36-40 | returns the same successor state as `uniform_12` and the value f / 2^52 of the new state's low 52 bits, which lies in [0, 1) |
| `Random.SphereTrial` | include/random.hpp:46-50 | the three coordinates of a trial, v * 2 - 1 for three successive `uniform_01` draws, lie in [-1, 1) |
| `Random.SphereTrialDraws` | include/random.hpp:46-50 | coordinate i of a trial (x, y, z for i = 1, 2, 3) is 2 · f / 2^52 - 1, where f is the low 52 bits of the state i transitions down the stream, so each coordinate has its own draw |
| `Random.ZeroSeedTrials` | include/random.hpp:44-57 | from the zero state every trial starts and ends at the zero state and yields the corner (-1, -1, -1) |
| `Random.SphereTrialSteps` | include/random.hpp:46-48 | a trial consumes exactly three transitions: its final state is three steps down the stream |
| `Random.TrialStartOnStream` | include/random.hpp:44-57 | after k rejected trials the loop restarts from the state 3k transitions down the stream |
| `Random.TrialEndOnStream` | include/random.hpp:46-56 | trial k returns the state 3(k + 1) transitions down the stream |
| `Random.RejectionLoop` | include/random.hpp:44-57 | runs trials, each from the state the previous one returned, until one is accepted; returns that trial's point and final state, and every earlier trial was rejected |
| `Random.UniformOnSphereSurface` | include/random.hpp:42-58 | returns an accepted point, the state after the accepted trial's third draw (3(k + 1) transitions down the stream), and every earlier trial k' < k was rejected |
| `Random.IntShiftLeft` | include/random.hpp:31 | a left shift of a 32-bit int is defined exactly when the count lies in [0, 32) |
| `Random.IntToUint64` | include/random.hpp:31 | converting an `int` bit pattern to `std::uint64_t` keeps its low 32 bits and fills the high 32 bits with copies of the sign bit |
| `Random.Uniform12AsWritten` | include/random.hpp:23-35 | `uniform_12` as written has a result exactly when the int shift `1023 << 52` is defined, and then advances the state once |
| `Random.ExponentBiasAsWritten` | include/random.hpp:31 | as written, the exponent constant `1023 << 52` is undefined for every state; the intended 64-bit constant is 1023 · 2^52 |
| `World.MakeWorld` | include/world.hpp:20-26 | the world has one object per argument, in argument order |
| `World.FirstHitIndex` | include/world.hpp:28-42 | None if and only if no object's test hits; otherwise k is in range, object k's test hits, and every earlier object's test misses |
| `World.FirstHit` | include/world.hpp:28-42 | None if and only if no object's test hits within [tmin, tmax] |
| `World.FirstHitIsFirst` | include/world.hpp:32-39 | if object k is hit and every earlier one missed, the query returns object k with exactly the record its test returned |
| `World.Collides` | include/world.hpp:28-42 | the scan tests the objects in array order with the same ray and bounds, and returns exactly `FirstHit`: the first object hit and its test's record, or None |
| `Image.Split` | src/main.cpp:59-60 | the column i % w is below w, and row · w + column gives back i |
| `Image.SplitInGrid` | src/main.cpp:57-60 | an index below w · h splits into a column below w and a row below h, and joins back to itself |
| `Image.JoinSplit` | src/main.cpp:57-60 | the cell (x, y) with x < w is reached from exactly the index y · w + x |
| `Image.SplitInjective` | src/main.cpp:67-70 | distinct indices split into distinct (column, row) pairs |
| `Render.RayColor` | src/main.cpp:26-48 | `ray_color` changes the state only when the depth is within the limit and some object is hit; `RayColorPastLimit`, `RayColorMiss` and `RayColorHit` pin its three cases |
| `Render.RayColorPastLimit` | src/main.cpp:30-33 | past the recursion limit the colour is black and the state is returned unchanged |
| `Render.RayColorMiss` | src/main.cpp:34-47 | a ray that no object's test hits gets the background colour and the state is returned unchanged |
| `Render.RayColorHit` | src/main.cpp:34-44 | a ray whose first hit is object k is scattered by k's material from the incoming state; the scattered ray is traced at depth + 1 from the state the bounce returned, and its colour is attenuated by k |
| `Render.RayColorOnStream` | src/main.cpp:26-48 | if every bounce draws from its stream, the returned state lies on the stream of the given state |
| `Render.TraceSamples` | src/main.cpp:67-80 | n samples yield n colours |
| `Render.TraceSamplesOnStream` | src/main.cpp:67-80 | if every bounce draws from its stream, the state after a pixel's samples lies on the stream of the state before them |
| `Render.RenderPixels` | src/main.cpp:54-84 | n pixels yield an image of n pixels |
| `Render.RenderPixelsPrefix` | src/main.cpp:57-84 | rendering further pixels never changes the pixels already rendered |
| `Render.RenderPixelsOnStream` | src/main.cpp:54-84 | if every bounce draws from its stream, the state after any number of pixels lies on the stream of seed 1234567890 and is never the zero state |
| `Render.SampleAt` | src/main.cpp:67-79 | sample s of a pixel is the colour of the primary ray at (s % S, s / S), traced at depth 0 from the state the samples before it left |
| `Render.PixelAt` | src/main.cpp:57-84 | pixel p of the image is the shade of the samples at (p % 640, p / 640), traced from the state the pixels before it left |
| `Render.SamplePixel` | src/main.cpp:66-80 | the sample loop traces sample s at (s % S, s / S), each from the state the previous sample returned, and yields exactly `TraceSamples` |
| `Render.MakeImage` | src/main.cpp:50-86 | starting from seed 1234567890, the image equals `RenderPixels` for all 640 · 480 pixels, so by `PixelAt` pixel p at (p % 640, p / 640) is traced from the state the pixels before it left |
| `Ppm.DigitChar` | src/main.cpp:18-19 | a digit is written as a character between '0' and '9' |
| `Ppm.Decimal` | src/main.cpp:18-19 | the text of a number is a non-empty string of decimal digits, with a leading '0' only for 0 |
| `Ppm.ParseDecimalInverts` | src/main.cpp:91-92 | the decimal text of the image size reads back as that number |
| `Ppm.HeaderString` | src/main.cpp:91-93 | the header's length is 3, plus the digits of the width, plus 1, plus the digits of the height, plus 5; `HeaderStringDefault` pins its text |
| `Ppm.HeaderStringDefault` | src/main.cpp:91-93 | for the 640 × 480 image the header is "P6\n640 480\n255\n", 15 characters |
| `Ppm.CharByte` | src/main.cpp:101 | a character below 256 is stored as its own code |
| `Ppm.HeaderBytes` | src/main.cpp:99-102 | there is one header byte per header character |
| `Ppm.HeaderBytesAreText` | src/main.cpp:99-102 | header byte i is the code of header character i |
| `Ppm.Raster` | src/main.cpp:104-110 | the raster has three bytes per pixel |
| `Ppm.RasterLayout` | src/main.cpp:104-110 | bytes 3p, 3p + 1 and 3p + 2 of the raster are pixel p's red, green and blue |
| `Ppm.DecodeRaster` | src/main.cpp:104-110 | reading three bytes per pixel gives a third as many pixels |
| `Ppm.DecodeRasterInverts` | src/main.cpp:104-110 | decoding the raster gives back the image |
| `Ppm.DecodeWithHeader` | src/main.cpp:88-112 | a file that decodes after the header hb is hb's length plus three bytes per decoded pixel |
| `Ppm.DecodeWithHeaderInverts` | src/main.cpp:88-112 | any header followed by the raster of an image decodes back to that image |
| `Ppm.DecodePpm` | src/main.cpp:88-112 | a file that decodes is the header length plus three bytes per decoded pixel |
| `Ppm.WriteHeader` | src/main.cpp:99-102 | byte i of the buffer becomes the cast of header character i, and the bytes after the header are untouched |
| `Ppm.WritePixels` | src/main.cpp:103-110 | after the loop, the bytes before the start index are unchanged and are followed by the raster of the image, and the bytes after the raster are unchanged |
| `Ppm.MakePpm` | src/main.cpp:88-112 | the buffer has header size + 3 · 640 · 480 bytes, holding the header bytes followed by the raster |
| `Ppm.MakePpmDecodes` | src/main.cpp:88-112 | the file `make_ppm` writes reads back as the image it was given |

## Left out

- Floating point: `bit_cast` to `double`, vector and colour arithmetic, the sphere intersection test, scattering, the camera geometry, the background gradient, and the averaging, clamping and truncation in `to_pixel`. `uniform_01` is modelled by its exact real value. The binary64 subtraction 1.f - 1 is exact, because both operands lie within a factor of two of each other.
- The square-root approximations of `include/math.hpp` and the coefficient generators under `tools/`. Nothing in the modelled core calls them except through the abstract oracles.
- `main()`: the argument check and the writing of the file. The model stops at the byte sequence.
- The `std::visit` dispatch. Each variant has one alternative, so the shape test and the material's scatter are plain function parameters.
- `Random.UniformOnSphereSurface`: the source loops forever when no trial is ever accepted. The model requires that some trial is accepted. Seed 0 is such an input: by `Random.ZeroSeedTrials` every trial from it is (-1, -1, -1), whose length √3 fails `l <= 1`. The length test `l <= 1` is an abstract `accept`, and the final division `v / l` (normalisation) is left out, so the result is the accepted point in the cube.
- `Render.RayColorOnStream`: proved only for bounce functions that draw from their own stream. The diffuse scatter does, through `Random.UniformOnSphereSurface`. The model does not derive that from the abstract `scatter`.
- `Render.TraceSamplesOnStream`: proved only for bounce functions that draw from their own stream, for the same reason as `Render.RayColorOnStream`.
- `Render.RenderPixelsOnStream`: proved only for bounce functions that draw from their own stream, for the same reason as `Render.RayColorOnStream`.
- `Render.MakeImage`: the colour sum `col` and the final division are abstract. The model collects the sample colours in order and leaves their combination to `shade`.
- `Render.TraceSamples` and `Render.RenderPixels`: their own contracts state only lengths. What they compute is stated by `Render.MakeImage`, `Render.SamplePixel` and the lemmas about them.
- The recursion limit and the samples per axis are parameters, not the build-time constants.

## Findings

| source | as written | input that shows it | evidently intended | confidence | as-written member | corrected member |
|---|---|---|---|---|---|---|
| include/random.hpp:31 | `1023 << 52` shifts a 32-bit `int` by 52, at least its width. That is undefined in C++, and it is not a constant expression. | every call of `uniform_12`, for example from the seed 1234567890 | the 64-bit constant 1023 · 2^52 = 0x3FF0000000000000, as in `1023ull << 52` | high (not executed) | `Random.ExponentBiasAsWritten` | `Random.Uniform12` |
