/** Perlin gradient noise (src/perlin.rs): a table of 256 random unit
    vectors, three shuffled permutation tables of the lattice coordinates,
    Hermite-smoothed interpolation of the eight corner gradients, and the
    turbulence sum of octaves. The random vectors and the shuffle's random
    indices are passed in as draws. */
module Perlins {
  import opened Utils
  import opened Vectors

  const PointCount := 256

  /** `0, 1, ..., n - 1`. */
  function Range(n: nat): (s: seq<int>)
    ensures |s| == n && forall i :: 0 <= i < n ==> s[i] == i
  {
    seq(n, i => i)
  }

  /** A lattice permutation table: each of 0..255 exactly once. */
  predicate IsPermutation(s: seq<int>)
  {
    multiset(s) == multiset(Range(PointCount))
  }

  /** A permutation table has 256 entries, all in [0, 255], and contains
      every value of that range. */
  lemma PermutationEntries(s: seq<int>)
    requires IsPermutation(s)
    ensures |s| == PointCount
    ensures forall i :: 0 <= i < |s| ==> 0 <= s[i] < PointCount
    ensures forall v :: 0 <= v < PointCount ==> v in s
  {
    assert |multiset(s)| == |multiset(Range(PointCount))|;
    forall i | 0 <= i < |s|
      ensures 0 <= s[i] < PointCount
    {
      assert s[i] in multiset(Range(PointCount));
    }
    forall v | 0 <= v < PointCount
      ensures v in s
    {
      assert Range(PointCount)[v] == v;
      assert v in multiset(s);
    }
  }

  /** The fill loop of `generate_permutation`: `p[value] = value`. */
  method IdentityTable() returns (p: array<int>)
    ensures fresh(p)
    ensures p[..] == Range(PointCount)
  {
    p := new int[PointCount];
    for value := 0 to PointCount
      invariant forall w :: 0 <= w < value ==> p[w] == w
    {
      p[value] := value;
    }
  }

  /** A Fisher-Yates shuffle of the first `n` positions of `s`: the entry at
      `n - 1` is swapped with the one at `draw(n - 1) % n`, then the first
      `n - 1` positions are shuffled; one position is left as it is. The
      result is a reordering of `s`. */
  function Shuffled(s: seq<int>, n: nat, draw: nat -> nat): (r: seq<int>)
    requires n <= |s|
    ensures |r| == |s| && multiset(r) == multiset(s)
    decreases n
  {
    if n <= 1 then s
    else
      var i := n - 1;
      var j := draw(i) % (i + 1);
      SwapKeepsMultiset(s, i, j);
      Shuffled(Swapped(s, i, j), n - 1, draw)
  }

  /** `s` with the entries at `i` and `j` exchanged. */
  function Swapped(s: seq<int>, i: nat, j: nat): (r: seq<int>)
    requires i < |s| && j < |s|
    ensures |r| == |s| && r[i] == s[j] && r[j] == s[i]
    ensures forall k :: 0 <= k < |s| && k != i && k != j ==> r[k] == s[k]
  {
    s[i := s[j]][j := s[i]]
  }

  /** One turn of the shuffle: shuffling `i + 1` positions is the swap at `i`
      followed by shuffling `i` positions. */
  lemma ShuffledStep(s: seq<int>, i: nat, draw: nat -> nat)
    requires 1 <= i < |s|
    ensures Shuffled(s, i + 1, draw) == Shuffled(Swapped(s, i, draw(i) % (i + 1)), i, draw)
  {
  }

  /** Swapping two entries reorders a sequence. */
  lemma SwapKeepsMultiset(s: seq<int>, i: nat, j: nat)
    requires i < |s| && j < |s|
    ensures multiset(Swapped(s, i, j)) == multiset(s)
  {
    if i != j {
      var t := s[i := s[j]];
      assert multiset(t) == multiset(s) - multiset{s[i]} + multiset{s[j]};
      assert multiset(t[j := s[i]]) == multiset(t) - multiset{t[j]} + multiset{s[i]};
    }
  }

  /** `slice::swap`: exchanges the entries at `i` and `j` in place. */
  method Swap(p: array<int>, i: nat, j: nat)
    requires i < p.Length && j < p.Length
    modifies p
    ensures p[..] == Swapped(old(p[..]), i, j)
  {
    p[i], p[j] := p[j], p[i];
  }

  /** `SliceRandom::shuffle`, a Fisher-Yates shuffle: from the last position
      down to the second, each entry is swapped with one at or before it.
      `draw(i) % (i + 1)` stands for the random index chosen at `i`. */
  method Shuffle(p: array<int>, draw: nat -> nat)
    modifies p
    ensures p[..] == Shuffled(old(p[..]), p.Length, draw)
  {
    ghost var goal := Shuffled(p[..], p.Length, draw);
    if p.Length > 1 {
      for i := p.Length downto 1
        invariant Shuffled(p[..], i, draw) == goal
      {
        ghost var before := p[..];
        Swap(p, i, draw(i) % (i + 1));
        ShuffledStep(before, i, draw);
      }
    }
  }

  /** `generate_permutation`: the identity table, shuffled. */
  method GeneratePermutation(draw: nat -> nat) returns (p: array<int>)
    ensures fresh(p)
    ensures IsPermutation(p[..])
  {
    p := IdentityTable();
    Shuffle(p, draw);
  }

  /** `(x as usize) & 255` for a lattice coordinate `x`: the cast saturates,
      so a negative coordinate gives 0 and one beyond `usize::MAX` gives 255;
      otherwise the mask keeps the low eight bits. */
  function LatticeIndex(x: int): (idx: int)
    ensures 0 <= idx < PointCount
    ensures 0 <= x < 0x1_0000_0000_0000_0000 ==> idx == x % PointCount
  {
    if x < 0 then 0
    else if x >= 0x1_0000_0000_0000_0000 then 255
    else x % PointCount
  }

  /** `2^k`. */
  function TwoTo(k: nat): (r: nat)
    ensures r >= 1
  {
    if k == 0 then 1 else 2 * TwoTo(k - 1)
  }

  /** Bitwise exclusive or of two naturals, one binary digit at a time. */
  function BitXor(a: nat, b: nat): nat
    decreases a + b
  {
    if a == 0 && b == 0 then 0 else 2 * BitXor(a / 2, b / 2) + (a + b) % 2
  }

  /** Exclusive or of two `k`-bit numbers has at most `k` bits. */
  lemma {:induction false} BitXorBound(a: nat, b: nat, k: nat)
    requires a < TwoTo(k) && b < TwoTo(k)
    ensures BitXor(a, b) < TwoTo(k)
    decreases k
  {
    if !(a == 0 && b == 0) {
      assert k > 0;
      BitXorBound(a / 2, b / 2, k - 1);
    }
  }

  /** `a ^ b ^ c` on three table entries; it indexes `random_vectors`. */
  function Xor3(a: int, b: int, c: int): (r: int)
    requires 0 <= a < PointCount && 0 <= b < PointCount && 0 <= c < PointCount
    ensures 0 <= r < PointCount
  {
    assert TwoTo(8) == PointCount;
    BitXorBound(a, b, 8);
    BitXorBound(BitXor(a, b), c, 8);
    BitXor(BitXor(a, b), c)
  }

  /** `x - x.floor()`. */
  function Fract(x: real): (f: real)
    ensures 0.0 <= f < 1.0
  {
    x - x.Floor as real
  }

  /** The Hermite smoothing `t^2 (3 - 2t)`. */
  function Hermite(t: real): (h: real)
    ensures t == 0.0 ==> h == 0.0
    ensures t == 1.0 ==> h == 1.0
  {
    t * t * (3.0 - 2.0 * t)
  }

  /** Hermite smoothing maps [0, 1] into [0, 1]. */
  lemma HermiteRange(t: real)
    requires 0.0 <= t <= 1.0
    ensures 0.0 <= Hermite(t) <= 1.0
  {
    MulNonNeg(t, t);
    MulNonNeg(t * t, 3.0 - 2.0 * t);
    assert 1.0 - Hermite(t) == (1.0 - t) * (1.0 - t) * (1.0 + 2.0 * t);
    MulNonNeg(1.0 - t, 1.0 - t);
    MulNonNeg((1.0 - t) * (1.0 - t), 1.0 + 2.0 * t);
  }

  /** The weight of the corner at offset `i` (0 or 1) along one axis for the
      smoothed fraction `h`: `i h + (1 - i)(1 - h)`. */
  function Weight(i: nat, h: real): real
  {
    (i as real) * h + (1.0 - i as real) * (1.0 - h)
  }

  /** The eight corner weights form a partition of unity. */
  lemma WeightsSumToOne(a: real, b: real, c: real)
    ensures Weight(0, a) * Weight(0, b) * Weight(0, c) + Weight(0, a) * Weight(0, b) * Weight(1, c)
          + Weight(0, a) * Weight(1, b) * Weight(0, c) + Weight(0, a) * Weight(1, b) * Weight(1, c)
          + Weight(1, a) * Weight(0, b) * Weight(0, c) + Weight(1, a) * Weight(0, b) * Weight(1, c)
          + Weight(1, a) * Weight(1, b) * Weight(0, c) + Weight(1, a) * Weight(1, b) * Weight(1, c) == 1.0
  {
    var x0, x1 := Weight(0, a), Weight(1, a);
    var y0, y1 := Weight(0, b), Weight(1, b);
    var z0, z1 := Weight(0, c), Weight(1, c);
    assert x0 + x1 == 1.0 && y0 + y1 == 1.0 && z0 + z1 == 1.0;
    assert x0 * y0 * z0 + x0 * y0 * z1 + x0 * y1 * z0 + x0 * y1 * z1
         + x1 * y0 * z0 + x1 * y0 * z1 + x1 * y1 * z0 + x1 * y1 * z1
        == (x0 + x1) * (y0 + y1) * (z0 + z1);
  }

  /** The term of the corner at offsets `(i, j, k)` with gradient `g` in
      `perlin_interpolation`: the corner's weight times the dot product of
      its gradient with the offset from the corner. */
  function CornerTerm(g: Vec3, i: nat, j: nat, k: nat, u: real, v: real, w: real): real
  {
    Weight(i, Hermite(u)) * Weight(j, Hermite(v)) * Weight(k, Hermite(w)) *
      Dot(g, Vec3(u - i as real, v - j as real, w - k as real))
  }

  /** Corner `n` of the eight, in loop order, is at offsets
      `(OffsetI(n), OffsetJ(n), OffsetK(n))`, the binary digits of `n`. */
  function OffsetI(n: nat): (i: nat)
    ensures i < 2
  {
    if n >= 4 then 1 else 0
  }

  function OffsetJ(n: nat): (j: nat)
    ensures j < 2
  {
    if n - 4 * OffsetI(n) >= 2 then 1 else 0
  }

  function OffsetK(n: nat): (k: nat)
    requires n < 8
    ensures k < 2
  {
    n - 4 * OffsetI(n) - 2 * OffsetJ(n)
  }

  /** Corner `4i + 2j + k` is at offsets `(i, j, k)`, and no earlier corner
      is. */
  lemma OffsetsOf(i: nat, j: nat, k: nat)
    requires i < 2 && j < 2 && k < 2
    ensures OffsetI(4 * i + 2 * j + k) == i
    ensures OffsetJ(4 * i + 2 * j + k) == j
    ensures OffsetK(4 * i + 2 * j + k) == k
    ensures forall m :: 0 <= m < 4 * i + 2 * j + k ==>
      (OffsetI(m), OffsetJ(m), OffsetK(m)) != (i, j, k)
  {
  }

  /** The term of corner `n`. */
  function Term(cs: seq<Vec3>, n: nat, u: real, v: real, w: real): real
    requires n < |cs| && n < 8
  {
    CornerTerm(cs[n], OffsetI(n), OffsetJ(n), OffsetK(n), u, v, w)
  }

  /** The sum of the first `n` corner terms. */
  function Sum(cs: seq<Vec3>, n: nat, u: real, v: real, w: real): real
    requires n <= |cs| && n <= 8
  {
    if n == 0 then 0.0 else Sum(cs, n - 1, u, v, w) + Term(cs, n - 1, u, v, w)
  }

  /** Perlin interpolation of the eight corner gradients `cs`. */
  function Interpolation(cs: seq<Vec3>, u: real, v: real, w: real): real
    requires |cs| == 8
  {
    Sum(cs, |cs|, u, v, w)
  }

  /** At a lattice point every corner term vanishes: corner (0, 0, 0) has a
      zero offset and every other corner has a zero weight. */
  lemma TermAtLattice(cs: seq<Vec3>, n: nat)
    requires n < |cs| && n < 8
    ensures Term(cs, n, 0.0, 0.0, 0.0) == 0.0
  {
    CornerAtLattice(cs[n], OffsetI(n), OffsetJ(n), OffsetK(n));
  }

  lemma CornerAtLattice(g: Vec3, i: nat, j: nat, k: nat)
    requires i < 2 && j < 2 && k < 2
    ensures CornerTerm(g, i, j, k, 0.0, 0.0, 0.0) == 0.0
  {
    var weightI, weightJ, weightK := Weight(i, Hermite(0.0)), Weight(j, Hermite(0.0)), Weight(k, Hermite(0.0));
    var d := Dot(g, Vec3(0.0 - i as real, 0.0 - j as real, 0.0 - k as real));
    if i == 0 && j == 0 && k == 0 {
      assert d == 0.0;
    } else if i == 1 {
      assert weightI == 0.0;
    } else if j == 1 {
      assert weightJ == 0.0;
    } else {
      assert weightK == 0.0;
    }
    ProductZero(weightI, weightJ, weightK, d);
  }

  /** A product of four factors one of which is zero. */
  lemma ProductZero(a: real, b: real, c: real, d: real)
    requires a == 0.0 || b == 0.0 || c == 0.0 || d == 0.0
    ensures a * b * c * d == 0.0
  {
  }

  lemma {:induction false} SumAtLattice(cs: seq<Vec3>, n: nat)
    requires n <= |cs| && n <= 8
    ensures Sum(cs, n, 0.0, 0.0, 0.0) == 0.0
  {
    if n > 0 {
      SumAtLattice(cs, n - 1);
      TermAtLattice(cs, n - 1);
    }
  }

  /** At a lattice point the interpolation, and so the noise, is zero. */
  lemma InterpolationAtLattice(cs: seq<Vec3>)
    requires |cs| == 8
    ensures Interpolation(cs, 0.0, 0.0, 0.0) == 0.0
  {
    SumAtLattice(cs, 8);
  }

  /** Adding the term of corner `(i, j, k)` extends the sum past it. */
  lemma SumStep(cs: seq<Vec3>, i: nat, j: nat, k: nat, u: real, v: real, w: real)
    requires |cs| == 8 && i < 2 && j < 2 && k < 2
    ensures Sum(cs, 4 * i + 2 * j + k + 1, u, v, w) ==
      Sum(cs, 4 * i + 2 * j + k, u, v, w) + CornerTerm(cs[4 * i + 2 * j + k], i, j, k, u, v, w)
  {
    OffsetsOf(i, j, k);
  }

  /** Cell `4i + 2j + k` of the visiting order is `c[i, j, k]`. */
  lemma CellAt(c: array3<Vec3>, i: nat, j: nat, k: nat)
    requires c.Length0 == 2 && c.Length1 == 2 && c.Length2 == 2
    requires i < 2 && j < 2 && k < 2
    ensures Cells(c)[4 * i + 2 * j + k] == c[i, j, k]
  {
    OffsetsOf(i, j, k);
  }

  /** Visiting `c[i, j, k]` adds its corner term to the running sum. */
  lemma AccumulateCell(c: array3<Vec3>, cs: seq<Vec3>, i: nat, j: nat, k: nat, u: real, v: real, w: real)
    requires c.Length0 == 2 && c.Length1 == 2 && c.Length2 == 2
    requires i < 2 && j < 2 && k < 2
    requires cs == Cells(c)
    ensures Sum(cs, 4 * i + 2 * j + k + 1, u, v, w) ==
      Sum(cs, 4 * i + 2 * j + k, u, v, w) + CornerTerm(c[i, j, k], i, j, k, u, v, w)
  {
    CellAt(c, i, j, k);
    SumStep(cs, i, j, k, u, v, w);
  }

  /** The cells of a 2x2x2 array in the order the loops visit them. */
  function Cells(c: array3<Vec3>): (cs: seq<Vec3>)
    requires c.Length0 == 2 && c.Length1 == 2 && c.Length2 == 2
    reads c
    ensures |cs| == 8
  {
    seq(8, n requires 0 <= n < 8 reads c => c[OffsetI(n), OffsetJ(n), OffsetK(n)])
  }

  /** `perlin_interpolation`: accumulates the eight corner terms in three
      nested loops. */
  method PerlinInterpolation(c: array3<Vec3>, u: real, v: real, w: real) returns (accum: real)
    requires c.Length0 == 2 && c.Length1 == 2 && c.Length2 == 2
    ensures accum == Interpolation(Cells(c), u, v, w)
  {
    ghost var cs := Cells(c);
    accum := 0.0;
    for i := 0 to 2
      invariant accum == Sum(cs, 4 * i, u, v, w)
    {
      for j := 0 to 2
        invariant accum == Sum(cs, 4 * i + 2 * j, u, v, w)
      {
        for k := 0 to 2
          invariant accum == Sum(cs, 4 * i + 2 * j + k, u, v, w)
        {
          AccumulateCell(c, cs, i, j, k, u, v, w);
          var term := CornerTerm(c[i, j, k], i, j, k, u, v, w);
          accum := accum + term;
        }
      }
    }
  }

  class Perlin {
    const randomVectors: seq<Vec3>
    const permX: seq<int>
    const permY: seq<int>
    const permZ: seq<int>

    /** The tables have 256 entries and the three lattice tables are
        permutations of 0..255. */
    ghost predicate Valid()
    {
      |randomVectors| == PointCount &&
      IsPermutation(permX) && IsPermutation(permY) && IsPermutation(permZ)
    }

    /** `Perlin::new`: the normalised random vectors, filled in a loop, and
        three independently shuffled permutation tables. */
    constructor (vectorDraw: nat -> Vec3, swapDraw: (nat, nat) -> nat, sqrt: real -> real)
      ensures Valid()
      ensures forall n :: 0 <= n < PointCount ==> randomVectors[n] == Norm(vectorDraw(n), sqrt)
    {
      var vectors := new Vec3[PointCount];
      for n := 0 to PointCount
        invariant forall m :: 0 <= m < n ==> vectors[m] == Norm(vectorDraw(m), sqrt)
      {
        vectors[n] := Norm(vectorDraw(n), sqrt);
      }
      var px := GeneratePermutation(i => swapDraw(0, i));
      var py := GeneratePermutation(i => swapDraw(1, i));
      var pz := GeneratePermutation(i => swapDraw(2, i));
      PermutationEntries(px[..]);
      PermutationEntries(py[..]);
      PermutationEntries(pz[..]);
      randomVectors := vectors[..];
      permX := px[..];
      permY := py[..];
      permZ := pz[..];
    }

    /** The gradient at corner `(di, dj, dk)` of the cell with lower corner
        `(i, j, k)`: the random vector chosen by the XOR of the three
        permuted lattice coordinates. */
    function Corner(di: nat, dj: nat, dk: nat, i: int, j: int, k: int): Vec3
      requires Valid()
    {
      PermutationEntries(permX);
      PermutationEntries(permY);
      PermutationEntries(permZ);
      var a := permX[LatticeIndex(i + di)];
      var b := permY[LatticeIndex(j + dj)];
      var c := permZ[LatticeIndex(k + dk)];
      randomVectors[Xor3(a, b, c)]
    }

    /** The eight corner gradients of a cell, in loop order. */
    function CornerCells(i: int, j: int, k: int): (cs: seq<Vec3>)
      requires Valid()
      ensures |cs| == 8
    {
      seq(8, n requires 0 <= n < 8 && Valid() =>
        Corner(OffsetI(n), OffsetJ(n), OffsetK(n), i, j, k))
    }

    /** The value of `noise` at `p`. */
    function NoiseValue(p: Vec3): real
      requires Valid()
    {
      Interpolation(CornerCells(p.x.Floor, p.y.Floor, p.z.Floor), Fract(p.x), Fract(p.y), Fract(p.z))
    }

    /** The first `count` cells of `c`, in loop order, hold their corner
        gradients. */
    ghost predicate Filled(c: array3<Vec3>, count: nat, i: int, j: int, k: int)
      requires Valid()
      requires c.Length0 == 2 && c.Length1 == 2 && c.Length2 == 2
      reads c
    {
      forall n :: 0 <= n < count && n < 8 ==>
        c[OffsetI(n), OffsetJ(n), OffsetK(n)] == Corner(OffsetI(n), OffsetJ(n), OffsetK(n), i, j, k)
    }

    /** `noise`: fills the corner gradients of the cell around `p` in three
        nested loops and interpolates them. */
    method Noise(p: Vec3) returns (n: real)
      requires Valid()
      ensures n == NoiseValue(p)
    {
      var u, v, w := Fract(p.x), Fract(p.y), Fract(p.z);
      var i, j, k := p.x.Floor, p.y.Floor, p.z.Floor;
      PermutationEntries(permX);
      PermutationEntries(permY);
      PermutationEntries(permZ);
      var c := new Vec3[2, 2, 2];
      for di := 0 to 2
        invariant Filled(c, 4 * di, i, j, k)
      {
        for dj := 0 to 2
          invariant Filled(c, 4 * di + 2 * dj, i, j, k)
        {
          for dk := 0 to 2
            invariant Filled(c, 4 * di + 2 * dj + dk, i, j, k)
          {
            OffsetsOf(di, dj, dk);
            var componentI := permX[LatticeIndex(i + di)];
            var componentJ := permY[LatticeIndex(j + dj)];
            var componentK := permZ[LatticeIndex(k + dk)];
            ghost var count := 4 * di + 2 * dj + dk;
            c[di, dj, dk] := randomVectors[Xor3(componentI, componentJ, componentK)];
            assert c[di, dj, dk] == Corner(di, dj, dk, i, j, k);
            forall m | 0 <= m < count + 1 && m < 8
              ensures c[OffsetI(m), OffsetJ(m), OffsetK(m)] == Corner(OffsetI(m), OffsetJ(m), OffsetK(m), i, j, k)
            {
              if m < count {
                assert (OffsetI(m), OffsetJ(m), OffsetK(m)) != (di, dj, dk);
              }
            }
          }
        }
      }
      assert Cells(c) == CornerCells(i, j, k);
      n := PerlinInterpolation(c, u, v, w);
    }

    /** The noise values of the first `octaves` octaves: octave `m` is the
        noise at `2^m p`. */
    ghost function OctaveNoises(p: Vec3, octaves: nat): (noises: seq<real>)
      requires Valid()
      ensures |noises| == octaves
    {
      if octaves == 0 then []
      else OctaveNoises(p, octaves - 1) + [NoiseValue(Scale(p, Power(2.0, octaves - 1)))]
    }

    /** Octave `m` of the noise values is the noise at `2^m p`. */
    lemma {:induction false} OctaveNoisesAt(p: Vec3, octaves: nat, m: nat)
      requires Valid()
      requires m < octaves
      ensures OctaveNoises(p, octaves)[m] == NoiseValue(Scale(p, Power(2.0, m)))
    {
      var prev := OctaveNoises(p, octaves - 1);
      assert OctaveNoises(p, octaves) == prev + [NoiseValue(Scale(p, Power(2.0, octaves - 1)))];
      if m < octaves - 1 {
        OctaveNoisesAt(p, octaves - 1, m);
        assert OctaveNoises(p, octaves)[m] == prev[m];
      }
    }

    /** One octave of `turbulence`: the noise at the current point extends
        the noise values and the sum, and the weight and point move on to the
        next octave. */
    lemma OctaveStep(p: Vec3, i: nat, noises: seq<real>, tempP: Vec3, noise: real, weight: real)
      requires Valid()
      requires noises == OctaveNoises(p, i)
      requires tempP == Scale(p, Power(2.0, i))
      requires noise == NoiseValue(tempP)
      requires weight == Power(0.5, i)
      ensures noises + [noise] == OctaveNoises(p, i + 1)
      ensures OctaveSum(noises + [noise]) == OctaveSum(noises) + weight * noise
      ensures weight * 0.5 == Power(0.5, i + 1)
      ensures Scale(tempP, 2.0) == Scale(p, Power(2.0, i + 1))
    {
      OctaveSumAppend(noises, noise, weight);
      ScaleTwice(p, Power(2.0, i), 2.0);
    }

    /** `turbulence`: sums `depth` octaves of noise, halving the weight and
        doubling the point each time, and returns the magnitude. */
    method Turbulence(p: Vec3, depth: nat) returns (t: real)
      requires Valid()
      ensures t == Abs(OctaveSum(OctaveNoises(p, depth)))
      ensures 0.0 <= t
      ensures depth == 0 ==> t == 0.0
    {
      var accum := 0.0;
      var tempP := p;
      var weight := 1.0;
      ghost var noises: seq<real> := [];
      for i := 0 to depth
        invariant noises == OctaveNoises(p, i)
        invariant weight == Power(0.5, i)
        invariant tempP == Scale(p, Power(2.0, i))
        invariant accum == OctaveSum(noises)
      {
        var noise := Noise(tempP);
        OctaveStep(p, i, noises, tempP, noise, weight);
        accum := accum + weight * noise;
        noises := noises + [noise];
        weight := weight * 0.5;
        tempP := MulAssign(tempP, 2.0);
      }
      t := Abs(accum);
    }
  }

  /** The octave sum of `turbulence` before the absolute value: octave `m`
      adds `0.5^m` times its noise value. */
  function OctaveSum(noises: seq<real>): real
  {
    if noises == [] then 0.0
    else OctaveSum(noises[..|noises| - 1]) + Power(0.5, |noises| - 1) * noises[|noises| - 1]
  }

  /** One more octave adds its noise at half the previous weight. */
  lemma {:induction false} OctaveSumAppend(noises: seq<real>, noise: real, weight: real)
    requires weight == Power(0.5, |noises|)
    ensures OctaveSum(noises + [noise]) == OctaveSum(noises) + weight * noise
  {
    var longer := noises + [noise];
    assert longer[..|longer| - 1] == noises;
    assert longer[|longer| - 1] == noise;
  }

  /** Scaling twice scales by the product. */
  lemma ScaleTwice(p: Vec3, a: real, b: real)
    ensures Scale(Scale(p, a), b) == Scale(p, b * a)
  {
    assert p.x * a * b == p.x * (b * a);
    assert p.y * a * b == p.y * (b * a);
    assert p.z * a * b == p.z * (b * a);
  }

  /** Noise vanishes at every lattice point. */
  lemma NoiseAtLattice(perlin: Perlin, p: Vec3)
    requires perlin.Valid()
    requires p.x == p.x.Floor as real && p.y == p.y.Floor as real && p.z == p.z.Floor as real
    ensures perlin.NoiseValue(p) == 0.0
  {
    InterpolationAtLattice(perlin.CornerCells(p.x.Floor, p.y.Floor, p.z.Floor));
  }
}
