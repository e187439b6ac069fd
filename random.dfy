/**
 * The random stream of the renderer (include/random.hpp): George Marsaglia's
 * 64-bit xorshift generator with the shift triple (13, 7, 17), from
 * "Xorshift RNGs" (2003), and the draws built on it. The state is a value
 * that every draw takes and returns; nothing is global.
 */
module Random {
  import opened Wrappers

  /** The generator: one 64-bit word of state. */
  datatype Xorshift64 = Xorshift64(state: bv64)

  // ---------------------------------------------------------------------
  // The transition and its inverse

  /** The three xor-shift steps of one transition, in the order applied. */
  function XorShl13(x: bv64): bv64 { x ^ (x << 13) }
  function XorShr7(x: bv64): bv64 { x ^ (x >> 7) }
  function XorShl17(x: bv64): bv64 { x ^ (x << 17) }

  /** The step inverses: xoring in every further multiple of the shift. */
  function UndoShl13(y: bv64): bv64 { y ^ (y << 13) ^ (y << 26) ^ (y << 39) ^ (y << 52) }
  function UndoShr7(y: bv64): bv64
  {
    y ^ (y >> 7) ^ (y >> 14) ^ (y >> 21) ^ (y >> 28) ^ (y >> 35) ^ (y >> 42) ^ (y >> 49) ^ (y >> 56) ^ (y >> 63)
  }
  function UndoShl17(y: bv64): bv64 { y ^ (y << 17) ^ (y << 34) ^ (y << 51) }

  lemma UndoShl13Inverts(x: bv64)
    ensures UndoShl13(XorShl13(x)) == x
    ensures XorShl13(UndoShl13(x)) == x
  {
    calc {
      UndoShl13(XorShl13(x));
      UndoShl13(x ^ (x << 13));
      (x ^ (x << 13)) ^ ((x ^ (x << 13)) << 13) ^ ((x ^ (x << 13)) << 26)
        ^ ((x ^ (x << 13)) << 39) ^ ((x ^ (x << 13)) << 52);
      x;
    }
    calc {
      XorShl13(UndoShl13(x));
      XorShl13(x ^ (x << 13) ^ (x << 26) ^ (x << 39) ^ (x << 52));
      (x ^ (x << 13) ^ (x << 26) ^ (x << 39) ^ (x << 52))
        ^ ((x ^ (x << 13) ^ (x << 26) ^ (x << 39) ^ (x << 52)) << 13);
      x;
    }
  }

  lemma UndoShr7Inverts(x: bv64)
    ensures UndoShr7(XorShr7(x)) == x
    ensures XorShr7(UndoShr7(x)) == x
  {
    calc {
      UndoShr7(XorShr7(x));
      UndoShr7(x ^ (x >> 7));
      (x ^ (x >> 7)) ^ ((x ^ (x >> 7)) >> 7) ^ ((x ^ (x >> 7)) >> 14) ^ ((x ^ (x >> 7)) >> 21)
        ^ ((x ^ (x >> 7)) >> 28) ^ ((x ^ (x >> 7)) >> 35) ^ ((x ^ (x >> 7)) >> 42)
        ^ ((x ^ (x >> 7)) >> 49) ^ ((x ^ (x >> 7)) >> 56) ^ ((x ^ (x >> 7)) >> 63);
      x;
    }
    calc {
      XorShr7(UndoShr7(x));
      XorShr7(x ^ (x >> 7) ^ (x >> 14) ^ (x >> 21) ^ (x >> 28) ^ (x >> 35) ^ (x >> 42) ^ (x >> 49) ^ (x >> 56) ^ (x >> 63));
      (x ^ (x >> 7) ^ (x >> 14) ^ (x >> 21) ^ (x >> 28) ^ (x >> 35) ^ (x >> 42) ^ (x >> 49) ^ (x >> 56) ^ (x >> 63))
        ^ ((x ^ (x >> 7) ^ (x >> 14) ^ (x >> 21) ^ (x >> 28) ^ (x >> 35) ^ (x >> 42) ^ (x >> 49) ^ (x >> 56) ^ (x >> 63)) >> 7);
      x;
    }
  }

  lemma UndoShl17Inverts(x: bv64)
    ensures UndoShl17(XorShl17(x)) == x
    ensures XorShl17(UndoShl17(x)) == x
  {
    calc {
      UndoShl17(XorShl17(x));
      UndoShl17(x ^ (x << 17));
      (x ^ (x << 17)) ^ ((x ^ (x << 17)) << 17) ^ ((x ^ (x << 17)) << 34) ^ ((x ^ (x << 17)) << 51);
      x;
    }
    calc {
      XorShl17(UndoShl17(x));
      XorShl17(x ^ (x << 17) ^ (x << 34) ^ (x << 51));
      (x ^ (x << 17) ^ (x << 34) ^ (x << 51)) ^ ((x ^ (x << 17) ^ (x << 34) ^ (x << 51)) << 17);
      x;
    }
  }

  /** One transition of the stream, for use in functions and lemmas. */
  function NextState(curr: Xorshift64): Xorshift64
  {
    Xorshift64(XorShl17(XorShr7(XorShl13(curr.state))))
  }

  /** The transition run backwards: the three step inverses in reverse order. */
  function PrevState(curr: Xorshift64): Xorshift64
  {
    Xorshift64(UndoShl13(UndoShr7(UndoShl17(curr.state))))
  }

  /** `next`: updates a local copy of the state in three xor-shift steps. */
  method Next(curr: Xorshift64) returns (r: Xorshift64)
    ensures r == NextState(curr)
    ensures PrevState(r) == curr
  {
    var x := curr.state;
    x := XorShl13(x);
    x := XorShr7(x);
    x := XorShl17(x);
    r := Xorshift64(x);
    PrevNextInverse(curr);
  }

  /** The transition is a bijection of the 2^64 states: PrevState undoes it on both sides. */
  lemma PrevNextInverse(s: Xorshift64)
    ensures PrevState(NextState(s)) == s
    ensures NextState(PrevState(s)) == s
  {
    var x := s.state;
    UndoShl13Inverts(x);
    UndoShr7Inverts(XorShl13(x));
    UndoShl17Inverts(XorShr7(XorShl13(x)));
    UndoShl17Inverts(x);
    UndoShr7Inverts(UndoShl17(x));
    UndoShl13Inverts(UndoShr7(UndoShl17(x)));
  }

  lemma NextInjective(a: Xorshift64, b: Xorshift64)
    ensures NextState(a) == NextState(b) <==> a == b
  {
    PrevNextInverse(a);
    PrevNextInverse(b);
  }

  /** The all-zero state is a fixed point, and it is the only state mapped to zero. */
  lemma ZeroIsOnlyFixedZero(s: Xorshift64)
    ensures NextState(Xorshift64(0)) == Xorshift64(0)
    ensures NextState(s).state == 0 <==> s.state == 0
  {
    calc {
      NextState(Xorshift64(0)).state;
      XorShl17(XorShr7(XorShl13(0)));
      0;
    }
    NextInjective(s, Xorshift64(0));
  }

  /** The state after n transitions. */
  function NextN(s: Xorshift64, n: nat): Xorshift64
  {
    if n == 0 then s else NextState(NextN(s, n - 1))
  }

  lemma {:induction false} NextNAdd(s: Xorshift64, a: nat, b: nat)
    ensures NextN(NextN(s, a), b) == NextN(s, a + b)
  {
    if b > 0 {
      NextNAdd(s, a, b - 1);
    }
  }

  /** b lies on the stream that starts at a: some number of transitions lead from a to b. */
  ghost predicate OnStream(a: Xorshift64, b: Xorshift64)
  {
    exists n: nat :: b == NextN(a, n)
  }

  /** Following the stream twice stays on the stream. */
  lemma OnStreamTrans(a: Xorshift64, b: Xorshift64, c: Xorshift64)
    requires OnStream(a, b) && OnStream(b, c)
    ensures OnStream(a, c)
  {
    var n: nat :| b == NextN(a, n);
    var m: nat :| c == NextN(b, m);
    NextNAdd(a, n, m);
  }

  /** A non-zero seed never reaches the zero state, however many steps are taken. */
  lemma {:induction false} NextNNonZero(s: Xorshift64, n: nat)
    requires s.state != 0
    ensures NextN(s, n).state != 0
  {
    if n > 0 {
      NextNNonZero(s, n - 1);
      ZeroIsOnlyFixedZero(NextN(s, n - 1));
    }
  }

  // ---------------------------------------------------------------------
  // IEEE 754 binary64 bit patterns (section 3.4 of IEEE 754-2008)

  const MantissaMask: bv64 := 0xF_FFFF_FFFF_FFFF
  /** The biased exponent 1023 in place: the 64-bit value 1023 * 2^52. */
  const ExponentBias: bv64 := 0x3FF0_0000_0000_0000
  const TwoTo52: int := 0x10_0000_0000_0000

  function SignField(bits: bv64): bv64 { bits >> 63 }
  function ExponentField(bits: bv64): (e: bv64) ensures e <= 0x7FF { (bits >> 52) & 0x7FF }
  function FractionField(bits: bv64): bv52 { (bits & MantissaMask) as bv52 }

  function Pow2Int(k: nat): (p: int)
    ensures p > 0
  {
    if k == 0 then 1 else 2 * Pow2Int(k - 1)
  }

  /** The trailing significand read as a binary fraction 0.f. */
  function FractionValue(bits: bv64): (v: real)
    ensures 0.0 <= v < 1.0
  {
    var f := FractionField(bits) as int;
    f as real / TwoTo52 as real
  }

  lemma SameFractionSameValue(a: bv64, b: bv64)
    requires FractionField(a) == FractionField(b)
    ensures FractionValue(a) == FractionValue(b)
  {
  }

  function Pow2(k: int): (p: real)
    ensures p > 0.0
    decreases if k < 0 then -k else k
  {
    if k == 0 then 1.0 else if k > 0 then 2.0 * Pow2(k - 1) else Pow2(k + 1) / 2.0
  }

  /** The biased exponent as a number. */
  function BiasedExponent(bits: bv64): (e: int)
    ensures ExponentField(bits) == 1023 ==> e == 1023
  {
    ExponentField(bits) as bv11 as int
  }

  /** The value of a normal binary64 number from its sign, biased exponent and fraction 0.f. */
  function NormalFromFields(negative: bool, biased: int, f: real): real
  {
    (if negative then -1.0 else 1.0) * (1.0 + f) * Pow2(biased - 1023)
  }

  /** The value a normal (not zero, subnormal, infinite or NaN) pattern encodes. */
  function NormalValue(bits: bv64): real
    requires 0 < ExponentField(bits) < 0x7FF
  {
    NormalFromFields(SignField(bits) != 0, BiasedExponent(bits), FractionValue(bits))
  }

  /** With sign + and biased exponent 1023 the scale is 2^0, so the value is 1.f. */
  lemma UnitScale(f: real)
    ensures NormalFromFields(false, 1023, f) == 1.0 + f
  {
    assert Pow2(0) == 1.0;
  }

  /** The exponent and the fraction occupy disjoint bits, so their sum adds no carry. */
  lemma PatternAddIsOr(m: bv64)
    ensures ExponentBias + (m & MantissaMask) == ExponentBias | (m & MantissaMask)
  {
  }

  /** The pattern with biased exponent 1023 over the low 52 bits of any word m. */
  lemma PatternFields(m: bv64)
    ensures SignField(ExponentBias + (m & MantissaMask)) == 0
    ensures ExponentField(ExponentBias + (m & MantissaMask)) == 1023
    ensures FractionField(ExponentBias + (m & MantissaMask)) == FractionField(m)
  {
    PatternAddIsOr(m);
    calc {
      SignField(ExponentBias | (m & MantissaMask));
      (ExponentBias | (m & MantissaMask)) >> 63;
      0;
    }
    calc {
      ExponentField(ExponentBias | (m & MantissaMask));
      ((ExponentBias | (m & MantissaMask)) >> 52) & 0x7FF;
      1023;
    }
    calc {
      FractionField(ExponentBias | (m & MantissaMask));
      ((ExponentBias | (m & MantissaMask)) & MantissaMask) as bv52;
      (m & MantissaMask) as bv52;
      FractionField(m);
    }
  }

  // ---------------------------------------------------------------------
  // Uniform draws

  /**
   * `uniform_12`: advances once and builds the pattern with sign 0, biased
   * exponent 1023 and the low 52 bits of the new state as the trailing
   * significand. Only the pattern is modelled, not the reinterpretation.
   */
  function Uniform12(rng: Xorshift64): (res: (bv64, Xorshift64))
    ensures res.1 == NextState(rng)
    ensures SignField(res.0) == 0 && ExponentField(res.0) == 1023
    ensures FractionField(res.0) == FractionField(NextState(rng).state)
  {
    var nrng := NextState(rng);
    var randomMantissa := nrng.state & MantissaMask;
    PatternFields(nrng.state);
    (ExponentBias + randomMantissa, nrng)
  }

  /** The value 1.f of a pattern whose biased exponent is 1023 and sign is 0. */
  function OneToTwo(bits: bv64): (v: real)
    ensures 1.0 <= v < 2.0
  {
    1.0 + FractionValue(bits)
  }

  /** A pattern with sign 0 and biased exponent 1023 encodes 1 + f / 2^52, a value in [1, 2). */
  lemma OneToTwoValue(bits: bv64)
    requires SignField(bits) == 0 && ExponentField(bits) == 1023
    ensures 0 < ExponentField(bits) < 0x7FF
    ensures NormalValue(bits) == OneToTwo(bits)
  {
    UnitScale(FractionValue(bits));
  }

  /** The pattern of `uniform_12` encodes 1 + f / 2^52 for the fraction f of the new state. */
  lemma Uniform12Value(rng: Xorshift64)
    ensures 0 < ExponentField(Uniform12(rng).0) < 0x7FF
    ensures NormalValue(Uniform12(rng).0) == 1.0 + FractionValue(NextState(rng).state)
  {
    var bits := Uniform12(rng).0;
    OneToTwoValue(bits);
    SameFractionSameValue(bits, NextState(rng).state);
  }

  /**
   * `uniform_01`: the value of `uniform_12` minus 1. In binary64 that
   * subtraction is exact (both operands lie within a factor of two of each
   * other), so the value is the fraction f / 2^52 itself.
   */
  function Uniform01(rng: Xorshift64): (res: (real, Xorshift64))
    ensures res.1 == Uniform12(rng).1
    ensures res.0 == FractionValue(NextState(rng).state)
    ensures 0.0 <= res.0 < 1.0
  {
    var (d, r) := Uniform12(rng);
    SameFractionSameValue(d, NextState(rng).state);
    (OneToTwo(d) - 1.0, r)
  }

  // ---------------------------------------------------------------------
  // Rejection sampling on the unit sphere

  datatype Vec3 = Vec3(x: real, y: real, z: real)

  /**
   * One trial of `uniform_on_sphere_surface`: three `uniform_01` draws in
   * sequence, each mapped from [0, 1) to [-1, 1) by v * 2 - 1 (exact in
   * binary64 for these values).
   */
  function SphereTrial(rng0: Xorshift64): (res: (Vec3, Xorshift64))
    ensures -1.0 <= res.0.x < 1.0 && -1.0 <= res.0.y < 1.0 && -1.0 <= res.0.z < 1.0
  {
    var (x, rng1) := Uniform01(rng0);
    var (y, rng2) := Uniform01(rng1);
    var (z, rng3) := Uniform01(rng2);
    (Vec3(x * 2.0 - 1.0, y * 2.0 - 1.0, z * 2.0 - 1.0), rng3)
  }

  /** A trial advances the stream by exactly three transitions. */
  lemma SphereTrialSteps(rng0: Xorshift64)
    ensures SphereTrial(rng0).1 == NextN(rng0, 3)
  {
    calc {
      SphereTrial(rng0).1;
      Uniform01(Uniform01(Uniform01(rng0).1).1).1;
      NextState(NextState(NextState(rng0)));
      { assert NextN(rng0, 1) == NextState(rng0); }
      NextN(rng0, 3);
    }
  }

  /**
   * The three coordinates of a trial come from three successive draws: the
   * i-th coordinate is 2 * f / 2^52 - 1 for the low 52 bits f of the state
   * i transitions down the stream.
   */
  lemma SphereTrialDraws(rng0: Xorshift64)
    ensures SphereTrial(rng0).0 == Vec3(FractionValue(NextN(rng0, 1).state) * 2.0 - 1.0,
                                        FractionValue(NextN(rng0, 2).state) * 2.0 - 1.0,
                                        FractionValue(NextN(rng0, 3).state) * 2.0 - 1.0)
  {
    var s1, s2, s3 := NextN(rng0, 1), NextN(rng0, 2), NextN(rng0, 3);
    assert NextN(rng0, 0) == rng0;
    assert s1 == NextState(rng0);
    assert s2 == NextState(s1);
    assert s3 == NextState(s2);
    var (x, r1) := Uniform01(rng0);
    var (y, r2) := Uniform01(r1);
    var (z, r3) := Uniform01(r2);
    assert x == FractionValue(s1.state) && y == FractionValue(s2.state) && z == FractionValue(s3.state);
  }

  /**
   * From the zero state every trial is the corner (-1, -1, -1) and the state
   * stays zero, so the stream never moves on to another point.
   */
  lemma {:induction false} ZeroSeedTrials(k: nat)
    ensures TrialStart(Xorshift64(0), k) == Xorshift64(0)
    ensures SphereTrial(TrialStart(Xorshift64(0), k)) == (Vec3(-1.0, -1.0, -1.0), Xorshift64(0))
  {
    var z := Xorshift64(0);
    ZeroIsOnlyFixedZero(z);
    assert FractionValue(0) == 0.0;
    if k > 0 {
      ZeroSeedTrials(k - 1);
    }
  }

  /** The state reached after k trials of `trial`, each started from the state the previous one returned. */
  function Iterate<S, P>(trial: S -> (P, S), s0: S, k: nat): S
  {
    if k == 0 then s0 else trial(Iterate(trial, s0, k - 1)).1
  }

  /** The state a sphere trial starts from after k rejected trials. */
  function TrialStart(rng0: Xorshift64, k: nat): Xorshift64
  {
    Iterate(SphereTrial, rng0, k)
  }

  /** Each trial consumes exactly three transitions of the stream. */
  lemma {:induction false} TrialStartOnStream(rng0: Xorshift64, k: nat)
    ensures TrialStart(rng0, k) == NextN(rng0, 3 * k)
  {
    if k > 0 {
      TrialStartOnStream(rng0, k - 1);
      SphereTrialSteps(TrialStart(rng0, k - 1));
      NextNAdd(rng0, 3 * (k - 1), 3);
    }
  }

  /** The k-th trial, counting from 0, returns the state 3 * (k + 1) steps down the stream. */
  lemma TrialEndOnStream(rng0: Xorshift64, k: nat)
    ensures SphereTrial(TrialStart(rng0, k)).1 == NextN(rng0, 3 * (k + 1))
  {
    TrialStartOnStream(rng0, k + 1);
  }

  /**
   * A rejection loop: run `trial`, each time from the state the previous
   * trial returned, until `accept` holds of its point. It returns the first
   * accepted point and the state that trial returned; every earlier trial
   * was rejected.
   */
  method RejectionLoop<S, P>(s0: S, trial: S -> (P, S), accept: P -> bool) returns (p: P, s: S, ghost k: nat)
    requires exists k: nat :: accept(trial(Iterate(trial, s0, k)).0)
    ensures accept(p)
    ensures forall j: nat :: j < k ==> !accept(trial(Iterate(trial, s0, j)).0)
    ensures (p, s) == trial(Iterate(trial, s0, k))
  {
    ghost var bound: nat :| accept(trial(Iterate(trial, s0, bound)).0);
    k := 0;
    var cur := s0;
    while true
      invariant cur == Iterate(trial, s0, k)
      invariant k <= bound
      invariant forall j: nat :: j < k ==> !accept(trial(Iterate(trial, s0, j)).0)
      decreases bound - k
    {
      var t := trial(cur);
      if accept(t.0) {
        p, s := t.0, t.1;
        return;
      }
      cur := t.1;
      k := k + 1;
    }
  }

  /**
   * The loop of `uniform_on_sphere_surface`, with the length test `l <= 1`
   * left abstract as `accept`. It returns the first accepted trial's point
   * and the state after that trial's third draw; every earlier trial was
   * rejected and restarted from the state its third draw returned.
   */
  method UniformOnSphereSurface(rng0: Xorshift64, accept: Vec3 -> bool) returns (v: Vec3, rng: Xorshift64, ghost k: nat)
    requires exists k: nat :: accept(SphereTrial(TrialStart(rng0, k)).0)
    ensures accept(v)
    ensures forall j: nat :: j < k ==> !accept(SphereTrial(TrialStart(rng0, j)).0)
    ensures (v, rng) == SphereTrial(TrialStart(rng0, k))
    ensures rng == NextN(rng0, 3 * (k + 1))
  {
    v, rng, k := RejectionLoop(rng0, SphereTrial, accept);
    TrialEndOnStream(rng0, k);
  }

  // ---------------------------------------------------------------------
  // The exponent constant as written

  const TwoTo31: int := 0x8000_0000
  const TwoTo32: int := 0x1_0000_0000

  /**
   * `e1 << e2` on a 32-bit `int`, under the rules of C++20 ([expr.shift]):
   * undefined (None) when e2 is negative or not less than the width 32,
   * otherwise the int congruent to e1 * 2^e2 modulo 2^32.
   */
  function IntShiftLeft(e1: int, e2: int): (r: Option<bv32>)
    requires -TwoTo31 <= e1 < TwoTo31
    ensures r.Some? <==> 0 <= e2 < 32
  {
    if e2 < 0 || e2 >= 32 then None
    else Some(((e1 * Pow2Int(e2)) % TwoTo32) as bv32)
  }

  /**
   * Conversion of an int bit pattern to `std::uint64_t`: the int's value
   * modulo 2^64, that is, the low 32 bits unchanged and the high 32 bits
   * copies of the sign bit.
   */
  function IntToUint64(b: bv32): (r: bv64)
    ensures (r & 0xFFFF_FFFF) as bv32 == b
    ensures r >> 32 == if b >> 31 == 1 then 0xFFFF_FFFF else 0
  {
    if b >> 31 == 1 then b as bv64 | 0xFFFF_FFFF_0000_0000 else b as bv64
  }

  /**
   * `uniform_12` as written: its exponent constant is the int shift
   * `1023 << 52`, so the pattern exists only if that shift is defined.
   */
  function Uniform12AsWritten(rng: Xorshift64): (r: Option<(bv64, Xorshift64)>)
    ensures r.Some? ==> r.value.1 == NextState(rng)
    ensures r.Some? <==> IntShiftLeft(1023, 52).Some?
  {
    var nrng := NextState(rng);
    var randomMantissa := nrng.state & MantissaMask;
    match IntShiftLeft(1023, 52)
    case None => None
    case Some(bias) => Some((IntToUint64(bias) + randomMantissa, nrng))
  }

  /** The as-written constant is undefined for every state; the intended one is 1023 * 2^52. */
  lemma ExponentBiasAsWritten(rng: Xorshift64)
    ensures Uniform12AsWritten(rng) == None
    ensures ExponentBias as int == 1023 * TwoTo52
  {
  }
}
