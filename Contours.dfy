/** The level-contour helpers of `drawLevelContours` (components/visualization-3d.tsx): the
    list of contour levels and `intersect`, which finds where a level crosses a grid edge. */
module Contours {
  import opened JsValues

  /** `levelsCount`. */
  const LevelsCount: nat := 6

  /** Level number `i`: `minZ + i/(levelsCount+1) · (maxZ − minZ)`. Numbers 0 and 7, which
      the loop skips, would be the ends of the range. */
  function Level(minZ: real, maxZ: real, i: int): (r: real)
    ensures i == 0 ==> r == minZ
    ensures i == LevelsCount + 1 ==> r == maxZ
  {
    minZ + (i as real / 7.0) * (maxZ - minZ)
  }

  /** The loop that pushes the levels for `i = 1 … levelsCount`. */
  method ContourLevels(minZ: real, maxZ: real) returns (levels: seq<real>)
    ensures |levels| == LevelsCount
    ensures forall k :: 0 <= k < |levels| ==> levels[k] == Level(minZ, maxZ, k + 1)
  {
    levels := [];
    var i := 1;
    while i <= LevelsCount
      invariant 1 <= i <= LevelsCount + 1
      invariant |levels| == i - 1
      invariant forall k :: 0 <= k < |levels| ==> levels[k] == Level(minZ, maxZ, k + 1)
    {
      levels := levels + [minZ + (i as real / 7.0) * (maxZ - minZ)];
      i := i + 1;
    }
  }

  /** Consecutive levels are a seventh of the range apart. */
  lemma LevelStep(minZ: real, maxZ: real, i: int)
    ensures Level(minZ, maxZ, i + 1) - Level(minZ, maxZ, i) == (maxZ - minZ) / 7.0
  {
    var d := maxZ - minZ;
    assert ((i + 1) as real / 7.0) * d == (i as real / 7.0) * d + d / 7.0;
  }

  /** `i/7·d` grows with `i` when the range is non-empty. */
  lemma {:induction false} LevelMonotone(minZ: real, maxZ: real, i: int, j: int)
    requires maxZ > minZ && i < j
    ensures Level(minZ, maxZ, i) < Level(minZ, maxZ, j)
    decreases j - i
  {
    LevelStep(minZ, maxZ, i);
    if i + 1 < j {
      LevelMonotone(minZ, maxZ, i + 1, j);
    }
  }

  /** On a non-empty range the six levels are strictly increasing and strictly inside it. */
  lemma LevelsInside(minZ: real, maxZ: real, levels: seq<real>)
    requires maxZ > minZ
    requires |levels| == LevelsCount && forall k :: 0 <= k < |levels| ==> levels[k] == Level(minZ, maxZ, k + 1)
    ensures forall a, b :: 0 <= a < b < |levels| ==> levels[a] < levels[b]
    ensures forall k :: 0 <= k < |levels| ==> minZ < levels[k] < maxZ
  {
    assert Level(minZ, maxZ, 0) == minZ;
    assert Level(minZ, maxZ, 7) == maxZ;
    forall a, b | 0 <= a < b < |levels| ensures levels[a] < levels[b] {
      LevelMonotone(minZ, maxZ, a + 1, b + 1);
    }
    forall k | 0 <= k < |levels| ensures minZ < levels[k] < maxZ {
      LevelMonotone(minZ, maxZ, 0, k + 1);
      LevelMonotone(minZ, maxZ, k + 1, 7);
    }
  }

  /** A corner of a grid cell: its position and the formula's value there. */
  datatype Corner = Corner(x: real, y: real, v: real)

  /** `t = (L − av) / (bv − av)`: how far along the edge the level sits. */
  function Fraction(level: real, av: real, bv: real): real
    requires av != bv
  {
    (level - av) / (bv - av)
  }

  /** `u + t·(w − u)`: the value a fraction `t` of the way from `u` to `w`. */
  function Lerp(u: real, w: real, t: real): real {
    u + t * (w - u)
  }

  /** `intersect(ax, ay, av, bx, by, bv, L)`: where level `L` crosses the edge from `a` to `b`
      under linear interpolation of the values, or `null`. */
  function Intersect(a: Corner, b: Corner, level: real): Option<(real, real)> {
    if (level - a.v) * (level - b.v) > 0.0 || a.v == b.v then None
    else
      var t := Fraction(level, a.v, b.v);
      Some((Lerp(a.x, b.x, t), Lerp(a.y, b.y, t)))
  }

  /** `L` lies between the two values, inclusive. */
  predicate Between(level: real, av: real, bv: real) {
    (av <= level <= bv) || (bv <= level <= av)
  }

  lemma AboveBoth(level: real, av: real, bv: real)
    requires level > av && level > bv
    ensures (level - av) * (level - bv) > 0.0
  {
    assert level - av > 0.0;
  }

  lemma BelowBoth(level: real, av: real, bv: real)
    requires level < av && level < bv
    ensures (level - av) * (level - bv) > 0.0
  {
    assert (level - av) * (level - bv) == (av - level) * (bv - level);
    assert av - level > 0.0;
  }

  lemma InBetween(level: real, av: real, bv: real)
    requires Between(level, av, bv)
    ensures (level - av) * (level - bv) <= 0.0
  {
    if av <= level <= bv {
      assert (level - av) * (bv - level) >= 0.0;
    } else {
      assert (av - level) * (level - bv) >= 0.0;
    }
  }

  /** The source's test `(L − av)·(L − bv) > 0` says exactly that `L` is not between the values. */
  lemma ProductSign(level: real, av: real, bv: real)
    ensures (level - av) * (level - bv) > 0.0 <==> !Between(level, av, bv)
  {
    if level > av && level > bv {
      AboveBoth(level, av, bv);
    } else if level < av && level < bv {
      BelowBoth(level, av, bv);
    } else {
      InBetween(level, av, bv);
    }
  }

  /** An edge is crossed exactly when its two values differ and the level lies between them. */
  lemma IntersectWhen(a: Corner, b: Corner, level: real)
    ensures Intersect(a, b, level).Some? <==> a.v != b.v && Between(level, a.v, b.v)
  {
    ProductSign(level, a.v, b.v);
  }

  lemma QuotientUp(x: real, d: real)
    requires d > 0.0 && 0.0 <= x <= d
    ensures 0.0 <= x / d <= 1.0
  {
  }

  lemma QuotientDown(x: real, d: real)
    requires d < 0.0 && d <= x <= 0.0
    ensures 0.0 <= x / d <= 1.0
  {
  }

  /** A level between the values sits at a fraction in [0, 1], where interpolation meets it. */
  lemma FractionInUnit(level: real, av: real, bv: real)
    requires av != bv && Between(level, av, bv)
    ensures 0.0 <= Fraction(level, av, bv) <= 1.0
    ensures Lerp(av, bv, Fraction(level, av, bv)) == level
  {
    if av < bv {
      QuotientUp(level - av, bv - av);
    } else {
      QuotientDown(level - av, bv - av);
    }
  }

  /** The crossing is on the segment from `a` to `b`, at the fraction `t ∈ [0, 1]` where the
      interpolated value equals the level. */
  lemma IntersectOnSegment(a: Corner, b: Corner, level: real)
    requires Intersect(a, b, level).Some?
    ensures exists t :: 0.0 <= t <= 1.0 && Lerp(a.v, b.v, t) == level
                        && Intersect(a, b, level) == Some((Lerp(a.x, b.x, t), Lerp(a.y, b.y, t)))
  {
    IntersectWhen(a, b, level);
    FractionInUnit(level, a.v, b.v);
  }

  lemma ZeroFactor(w: real, d: real)
    requires d != 0.0 && w * d == 0.0
    ensures w == 0.0
  {
  }

  /** The fraction is 0 at the first value and 1 at the second. */
  lemma FractionEnds(av: real, bv: real)
    requires av != bv
    ensures Fraction(av, av, bv) == 0.0 && Fraction(bv, av, bv) == 1.0
  {
    FractionReversed(bv, av, bv);
  }

  /** A level equal to an endpoint's value is crossed at that endpoint. */
  lemma IntersectAtEndpoints(a: Corner, b: Corner)
    requires a.v != b.v
    ensures Intersect(a, b, a.v) == Some((a.x, a.y))
    ensures Intersect(a, b, b.v) == Some((b.x, b.y))
  {
    FractionEnds(a.v, b.v);
    InBetween(a.v, a.v, b.v);
    InBetween(b.v, a.v, b.v);
  }

  /** Walking the edge backwards gives the complementary fraction. */
  lemma FractionReversed(level: real, av: real, bv: real)
    requires av != bv
    ensures Fraction(level, bv, av) == 1.0 - Fraction(level, av, bv)
  {
    var t := (level - av) / (bv - av);
    var u := (level - bv) / (av - bv);
    var d := av - bv;
    assert t * (bv - av) == level - av;
    assert u * d == level - bv;
    var w := u - (1.0 - t);
    assert w * d == 0.0;
    ZeroFactor(w, d);
  }

  /** Interpolating backwards by the complementary fraction reaches the same point. */
  lemma LerpReversed(u: real, w: real, t: real)
    ensures Lerp(w, u, 1.0 - t) == Lerp(u, w, t)
  {
    assert (1.0 - t) * (u - w) == (u - w) - t * (u - w);
  }

  /** The crossing does not depend on the direction the edge is walked. */
  lemma IntersectSymmetric(a: Corner, b: Corner, level: real)
    ensures Intersect(a, b, level) == Intersect(b, a, level)
  {
    IntersectWhen(a, b, level);
    IntersectWhen(b, a, level);
    if a.v != b.v && Between(level, a.v, b.v) {
      FractionReversed(level, a.v, b.v);
      var t := Fraction(level, a.v, b.v);
      LerpReversed(a.x, b.x, t);
      LerpReversed(a.y, b.y, t);
    }
  }
}
