/**
 * The renderer: `ray_color`, which follows one ray through the scene and
 * threads the random state through every bounce, and `make_image`, which
 * shoots a grid of sample rays through every pixel and threads one random
 * state through all of them, starting from a fixed seed.
 *
 * The floating-point parts stay abstract: the intersection test, the
 * scattering of a material, the attenuation by an object, the background
 * gradient, the camera geometry that turns pixel and sample coordinates
 * into a primary ray, and the averaging and clamping that turn the sample
 * colours of a pixel into its bytes. What is modelled is the control flow,
 * the recursion bound and the order in which random states are used.
 */
module Render {
  import opened Wrappers
  import opened Random
  import opened World
  import opened Image

  /**
   * The smallest ray parameter a collision may have (it keeps a bounce off
   * its own surface): the binary64 value nearest to 0.001, written exactly.
   */
  const TMin: real := 0.001000000000000000020816681711721685132943093776702880859375

  /** The largest finite binary64 value, (2 - 2^-52) * 2^1023, used as "no upper bound". */
  const TMax: real := 179769313486231570814527423731704356798070567525844996598917476803157260780028538760589558632766878171540458953514382464234321326889464182768467546703537516986049910576551282076245490090389328944075868508455133942304583236903222948165808559332123348274797826204144723168738177180919299881250404026184124858368.0

  /** The seed of the random stream `make_image` starts from. */
  const Seed: Xorshift64 := Xorshift64(1234567890)

  /**
   * What `ray_color` needs and the model leaves abstract:
   * hit        the per-shape intersection test,
   * scatter    the material's bounce: a new ray and the next random state,
   * attenuate  the colour of a bounce seen through the object it bounced off,
   * background the colour of a ray that leaves the scene,
   * black      the colour {0, 0, 0},
   * limit      the recursion limit (a build-time constant).
   */
  datatype Tracer<!M, !Sh, !R, !Info, !C> = Tracer(
    hit: (R, Sh, real, real) -> Option<Info>,
    scatter: (Info, M, Xorshift64) -> (R, Xorshift64),
    attenuate: (C, Object<M, Sh>) -> C,
    background: R -> C,
    black: C,
    limit: nat)

  /** Every bounce draws its randomness from the stream it is given. */
  ghost predicate ScatterOnStream<M(!new), Sh, R, Info(!new), C>(tr: Tracer<M, Sh, R, Info, C>)
  {
    forall info: Info, m: M, s: Xorshift64 :: OnStream(s, tr.scatter(info, m, s).1)
  }

  /** Remaining recursion budget of a call at the given depth. */
  function Budget(limit: nat, depth: nat): nat
  {
    if depth > limit then 0 else limit + 1 - depth
  }

  /**
   * `ray_color`: black once the depth passes the limit; otherwise the first
   * object the ray hits (with bounds TMin and TMax) scatters it, and the
   * colour of the scattered ray, traced one level deeper from the state the
   * bounce returned, is attenuated by that object; a ray that hits nothing
   * gets the background and leaves the state as it was.
   */
  function RayColor<M, Sh, R, Info, C>(tr: Tracer<M, Sh, R, Info, C>, w: World<M, Sh>, r: R, rng: Xorshift64, depth: nat): (res: (C, Xorshift64))
    ensures res.1 != rng ==> depth <= tr.limit && FirstHit(w.objects, tr.hit, r, TMin, TMax).Some?
    decreases Budget(tr.limit, depth)
  {
    if depth > tr.limit then (tr.black, rng)
    else
      match FirstHit(w.objects, tr.hit, r, TMin, TMax)
      case Some((info, obj)) =>
        var (nray, nrng) := tr.scatter(info, obj.material, rng);
        var (c, nrng2) := RayColor(tr, w, nray, nrng, depth + 1);
        (tr.attenuate(c, obj), nrng2)
      case None => (tr.background(r), rng)
  }

  /** Past the limit nothing is traced and no randomness is used. */
  lemma RayColorPastLimit<M, Sh, R, Info, C>(tr: Tracer<M, Sh, R, Info, C>, w: World<M, Sh>, r: R, rng: Xorshift64, depth: nat)
    requires depth > tr.limit
    ensures RayColor(tr, w, r, rng, depth) == (tr.black, rng)
  {
  }

  /** A ray that no object's test hits gets the background and uses no randomness. */
  lemma RayColorMiss<M, Sh, R, Info, C>(tr: Tracer<M, Sh, R, Info, C>, w: World<M, Sh>, r: R, rng: Xorshift64, depth: nat)
    requires depth <= tr.limit
    requires forall i :: 0 <= i < |w.objects| ==> tr.hit(r, w.objects[i].shape, TMin, TMax).None?
    ensures RayColor(tr, w, r, rng, depth) == (tr.background(r), rng)
  {
    assert FirstHit(w.objects, tr.hit, r, TMin, TMax).None?;
  }

  /**
   * A ray whose first hit, in array order, is object k bounces off that
   * object: it is scattered by k's material from the incoming state, the
   * scattered ray is traced one level deeper from the state the bounce
   * returned, and its colour is attenuated by k.
   */
  lemma RayColorHit<M, Sh, R, Info, C>(tr: Tracer<M, Sh, R, Info, C>, w: World<M, Sh>, r: R, rng: Xorshift64, depth: nat, k: nat)
    requires depth <= tr.limit
    requires k < |w.objects|
    requires tr.hit(r, w.objects[k].shape, TMin, TMax).Some?
    requires forall j :: 0 <= j < k ==> tr.hit(r, w.objects[j].shape, TMin, TMax).None?
    ensures
      var obj := w.objects[k];
      var bounce := tr.scatter(tr.hit(r, obj.shape, TMin, TMax).value, obj.material, rng);
      var deeper := RayColor(tr, w, bounce.0, bounce.1, depth + 1);
      RayColor(tr, w, r, rng, depth) == (tr.attenuate(deeper.0, obj), deeper.1)
  {
    FirstHitIsFirst(w.objects, tr.hit, r, TMin, TMax, k);
  }

  /**
   * The state `ray_color` returns lies on the stream of the state it was
   * given, provided every bounce draws from its stream.
   */
  lemma {:induction false} RayColorOnStream<M(!new), Sh, R, Info(!new), C>(tr: Tracer<M, Sh, R, Info, C>, w: World<M, Sh>, r: R, rng: Xorshift64, depth: nat)
    requires ScatterOnStream(tr)
    ensures OnStream(rng, RayColor(tr, w, r, rng, depth).1)
    decreases Budget(tr.limit, depth)
  {
    assert NextN(rng, 0) == rng;
    if depth <= tr.limit {
      match FirstHit(w.objects, tr.hit, r, TMin, TMax)
      case Some((info, obj)) =>
        var (nray, nrng) := tr.scatter(info, obj.material, rng);
        RayColorOnStream(tr, w, nray, nrng, depth + 1);
        OnStreamTrans(rng, nrng, RayColor(tr, w, nray, nrng, depth + 1).1);
      case None =>
    }
  }

  /**
   * What `make_image` leaves to the camera and to colour arithmetic:
   * primary     the ray through pixel (x, y) at sub-pixel sample (sx, sy),
   * shade       the pixel of a list of sample colours (their average,
   *             clamped and scaled to bytes),
   * samplesSqrt the number of samples per pixel along each axis.
   */
  datatype Sampler<!R, !C> = Sampler(
    primary: (nat, nat, nat, nat) -> R,
    shade: seq<C> -> Pixel,
    samplesSqrt: nat)

  /**
   * The colours of the first n samples of pixel (x, y), traced one after the
   * other from state rng, and the state after them. Sample s sits at column
   * s % samplesSqrt and row s / samplesSqrt of the pixel.
   */
  function TraceSamples<M, Sh, R, Info, C>(tr: Tracer<M, Sh, R, Info, C>, w: World<M, Sh>, sm: Sampler<R, C>, x: nat, y: nat, n: nat, rng: Xorshift64): (res: (seq<C>, Xorshift64))
    requires n <= sm.samplesSqrt * sm.samplesSqrt
    ensures |res.0| == n
  {
    if n == 0 then ([], rng)
    else
      var (cols, rng1) := TraceSamples(tr, w, sm, x, y, n - 1, rng);
      var (sx, sy) := Split(n - 1, sm.samplesSqrt);
      var (c, rng2) := RayColor(tr, w, sm.primary(x, y, sx, sy), rng1, 0);
      (cols + [c], rng2)
  }

  /**
   * The first n pixels of the image, pixel p at column p % ImageWidth and
   * row p / ImageWidth, and the state after them; the stream starts at Seed
   * and each pixel's samples continue it.
   */
  function RenderPixels<M, Sh, R, Info, C>(tr: Tracer<M, Sh, R, Info, C>, w: World<M, Sh>, sm: Sampler<R, C>, n: nat): (res: (seq<Pixel>, Xorshift64))
    ensures |res.0| == n
  {
    if n == 0 then ([], Seed)
    else
      var (pixels, rng1) := RenderPixels(tr, w, sm, n - 1);
      var (x, y) := Split(n - 1, ImageWidth);
      var (cols, rng2) := TraceSamples(tr, w, sm, x, y, sm.samplesSqrt * sm.samplesSqrt, rng1);
      (pixels + [sm.shade(cols)], rng2)
  }

  /** Rendering more pixels never changes the ones already rendered. */
  lemma {:induction false} RenderPixelsPrefix<M, Sh, R, Info, C>(tr: Tracer<M, Sh, R, Info, C>, w: World<M, Sh>, sm: Sampler<R, C>, k: nat, n: nat)
    requires k <= n
    ensures RenderPixels(tr, w, sm, n).0[..k] == RenderPixels(tr, w, sm, k).0
  {
    if k < n {
      RenderPixelsPrefix(tr, w, sm, k, n - 1);
      var prev := RenderPixels(tr, w, sm, n - 1).0;
      assert RenderPixels(tr, w, sm, n).0[..n - 1] == prev;
      assert RenderPixels(tr, w, sm, n).0[..k] == prev[..k];
    }
  }

  /**
   * Sample s of a pixel, at column s % samplesSqrt and row s / samplesSqrt,
   * is traced from the state the samples before it left.
   */
  lemma SampleAt<M, Sh, R, Info, C>(tr: Tracer<M, Sh, R, Info, C>, w: World<M, Sh>, sm: Sampler<R, C>, x: nat, y: nat, s: nat, n: nat, rng: Xorshift64)
    requires s < n <= sm.samplesSqrt * sm.samplesSqrt
    ensures sm.samplesSqrt > 0
    ensures TraceSamples(tr, w, sm, x, y, n, rng).0[s]
         == RayColor(tr, w, sm.primary(x, y, s % sm.samplesSqrt, s / sm.samplesSqrt), TraceSamples(tr, w, sm, x, y, s, rng).1, 0).0
    decreases n
  {
    NonEmptyGrid(s, sm.samplesSqrt);
    if s < n - 1 {
      SampleAt(tr, w, sm, x, y, s, n - 1, rng);
    }
  }

  /**
   * Pixel p of the image, at column p % ImageWidth and row p / ImageWidth,
   * is the shade of its samples, traced from the state the pixels before it left.
   */
  lemma PixelAt<M, Sh, R, Info, C>(tr: Tracer<M, Sh, R, Info, C>, w: World<M, Sh>, sm: Sampler<R, C>, p: nat, n: nat)
    requires p < n
    ensures RenderPixels(tr, w, sm, n).0[p]
         == sm.shade(TraceSamples(tr, w, sm, p % ImageWidth, p / ImageWidth, sm.samplesSqrt * sm.samplesSqrt, RenderPixels(tr, w, sm, p).1).0)
  {
    RenderPixelsPrefix(tr, w, sm, p + 1, n);
    assert RenderPixels(tr, w, sm, n).0[p] == RenderPixels(tr, w, sm, n).0[..p + 1][p];
  }

  /** The samples of a pixel leave the state on the stream they started from. */
  lemma {:induction false} TraceSamplesOnStream<M(!new), Sh, R, Info(!new), C>(tr: Tracer<M, Sh, R, Info, C>, w: World<M, Sh>, sm: Sampler<R, C>, x: nat, y: nat, n: nat, rng: Xorshift64)
    requires ScatterOnStream(tr)
    requires n <= sm.samplesSqrt * sm.samplesSqrt
    ensures OnStream(rng, TraceSamples(tr, w, sm, x, y, n, rng).1)
  {
    if n == 0 {
      assert NextN(rng, 0) == rng;
    } else {
      TraceSamplesOnStream(tr, w, sm, x, y, n - 1, rng);
      var rng1 := TraceSamples(tr, w, sm, x, y, n - 1, rng).1;
      var (sx, sy) := Split(n - 1, sm.samplesSqrt);
      RayColorOnStream(tr, w, sm.primary(x, y, sx, sy), rng1, 0);
      OnStreamTrans(rng, rng1, RayColor(tr, w, sm.primary(x, y, sx, sy), rng1, 0).1);
    }
  }

  /**
   * The whole image draws from one stream: the state after any number of
   * pixels lies on the stream of Seed, which never reaches the zero state.
   */
  lemma {:induction false} RenderPixelsOnStream<M(!new), Sh, R, Info(!new), C>(tr: Tracer<M, Sh, R, Info, C>, w: World<M, Sh>, sm: Sampler<R, C>, n: nat)
    requires ScatterOnStream(tr)
    ensures OnStream(Seed, RenderPixels(tr, w, sm, n).1)
    ensures RenderPixels(tr, w, sm, n).1.state != 0
  {
    if n == 0 {
      assert NextN(Seed, 0) == Seed;
    } else {
      RenderPixelsOnStream(tr, w, sm, n - 1);
      var rng1 := RenderPixels(tr, w, sm, n - 1).1;
      var (x, y) := Split(n - 1, ImageWidth);
      TraceSamplesOnStream(tr, w, sm, x, y, sm.samplesSqrt * sm.samplesSqrt, rng1);
      OnStreamTrans(Seed, rng1, RenderPixels(tr, w, sm, n).1);
    }
    var k: nat :| RenderPixels(tr, w, sm, n).1 == NextN(Seed, k);
    NextNNonZero(Seed, k);
  }

  /**
   * The sample loop of `make_image` for pixel (x, y): sample s, at column
   * s % samplesSqrt and row s / samplesSqrt of the pixel, is traced from the
   * state the previous sample returned.
   */
  method SamplePixel<M, Sh, R, Info, C>(tr: Tracer<M, Sh, R, Info, C>, w: World<M, Sh>, sm: Sampler<R, C>, x: nat, y: nat, rng0: Xorshift64)
    returns (cols: seq<C>, rng: Xorshift64)
    ensures (cols, rng) == TraceSamples(tr, w, sm, x, y, sm.samplesSqrt * sm.samplesSqrt, rng0)
  {
    cols, rng := [], rng0;
    for s := 0 to sm.samplesSqrt * sm.samplesSqrt
      invariant (cols, rng) == TraceSamples(tr, w, sm, x, y, s, rng0)
    {
      NonEmptyGrid(s, sm.samplesSqrt);
      var (sx, sy) := Split(s, sm.samplesSqrt);
      var (c, nrng) := RayColor(tr, w, sm.primary(x, y, sx, sy), rng, 0);
      cols := cols + [c];
      rng := nrng;
    }
  }

  /**
   * `make_image`: for every pixel in row-major order, trace its samples
   * from the state the previous pixel left, and store the shaded pixel. The
   * result is the image RenderPixels describes.
   */
  method MakeImage<M, Sh, R, Info, C>(tr: Tracer<M, Sh, R, Info, C>, w: World<M, Sh>, sm: Sampler<R, C>) returns (image: seq<Pixel>)
    ensures image == RenderPixels(tr, w, sm, PixelCount).0
  {
    var rng := Seed;
    var img := new Pixel[PixelCount];
    for pxl := 0 to PixelCount
      invariant img[..pxl] == RenderPixels(tr, w, sm, pxl).0
      invariant rng == RenderPixels(tr, w, sm, pxl).1
    {
      var x := pxl % ImageWidth;
      var y := pxl / ImageWidth;
      var cols;
      cols, rng := SamplePixel(tr, w, sm, x, y, rng);
      img[pxl] := sm.shade(cols);
      assert img[..pxl + 1] == img[..pxl] + [img[pxl]];
    }
    image := img[..];
  }
}
