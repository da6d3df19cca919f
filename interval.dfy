/**
 * The one-dimensional intervals of src/core/interval.h. Bounds are doubles
 * that may be infinite (the empty and universe intervals use +-infinity), so
 * they are modelled as extended reals.
 */
module Intervals {
  import opened Wrappers

  /** A double that is finite or one of the two infinities (NaN is not a bound). */
  datatype ExtReal = NegInf | Fin(v: real) | PosInf

  /** IEEE `<` on non-NaN doubles. */
  predicate Lt(a: ExtReal, b: ExtReal) {
    match a
    case NegInf => !b.NegInf?
    case Fin(x) => (b.Fin? && x < b.v) || b.PosInf?
    case PosInf => false
  }

  /** IEEE `<=` on non-NaN doubles. */
  predicate Le(a: ExtReal, b: ExtReal) {
    a == b || Lt(a, b)
  }

  /** `<=` is a total order on the extended reals. */
  lemma LeTotalOrder(a: ExtReal, b: ExtReal, c: ExtReal)
    ensures Le(a, a)
    ensures Le(a, b) || Le(b, a)
    ensures Le(a, b) && Le(b, a) ==> a == b
    ensures Le(a, b) && Le(b, c) ==> Le(a, c)
    ensures Lt(a, b) <==> !Le(b, a)
  {
  }

  /** `a + d` for a finite `d`: an infinity absorbs it. */
  function Plus(a: ExtReal, d: real): ExtReal {
    match a
    case Fin(x) => Fin(x + d)
    case _ => a
  }

  /** `a - b`; None stands for the NaN of subtracting an infinity from itself. */
  function Minus(a: ExtReal, b: ExtReal): Option<ExtReal> {
    match (a, b)
    case (Fin(x), Fin(y)) => Some(Fin(x - y))
    case (PosInf, PosInf) => None
    case (NegInf, NegInf) => None
    case (PosInf, _) => Some(PosInf)
    case (NegInf, _) => Some(NegInf)
    case (Fin(_), PosInf) => Some(NegInf)
    case (Fin(_), NegInf) => Some(PosInf)
  }

  datatype Interval = Interval(min: ExtReal, max: ExtReal) {

    /** `size()`: max - min. */
    function Size(): Option<ExtReal> {
      Minus(max, min)
    }

    /** Inclusive membership: min <= x <= max. */
    predicate Contains(x: real) {
      Le(min, Fin(x)) && Le(Fin(x), max)
    }

    /** Exclusive membership: min < x < max. */
    predicate Surrounds(x: real) {
      Lt(min, Fin(x)) && Lt(Fin(x), max)
    }

    /** `clamp(x)`: the closest point of [min, max] to x. */
    function Clamp(x: real): (r: ExtReal)
      ensures Le(min, max) ==> Le(min, r) && Le(r, max)
      ensures Contains(x) ==> r == Fin(x)
      ensures Lt(Fin(x), min) ==> r == min
      ensures !Lt(Fin(x), min) && Lt(max, Fin(x)) ==> r == max
    {
      if Lt(Fin(x), min) then min
      else if Lt(max, Fin(x)) then max
      else Fin(x)
    }

    /** `expand(delta)`: widen by delta in total, half on each side. */
    function Expand(delta: real): Interval {
      var padding := delta / 2.0;
      Interval(Plus(min, -padding), Plus(max, padding))
    }

    /** `ival + displacement`. */
    function Shift(displacement: real): Interval {
      Interval(Plus(min, displacement), Plus(max, displacement))
    }
  }

  /** The default-constructed interval and `interval::empty`: (+inf, -inf). */
  const Empty: Interval := Interval(PosInf, NegInf)

  /** `interval::universe`: (-inf, +inf). */
  const Universe: Interval := Interval(NegInf, PosInf)

  /** The interval constructor from two intervals: the smallest interval holding both. */
  function Hull(a: Interval, b: Interval): Interval {
    Interval(if Le(a.min, b.min) then a.min else b.min,
             if Le(b.max, a.max) then a.max else b.max)
  }

  /** `displacement + ival`, which forwards to `ival + displacement`. */
  function ShiftLeft(displacement: real, ival: Interval): Interval {
    ival.Shift(displacement)
  }

  /** `a` lies inside `b`. */
  predicate Within(a: Interval, b: Interval) {
    Le(b.min, a.min) && Le(a.max, b.max)
  }

  /** The hull keeps every value either input holds, and holds both inputs. */
  lemma HullContains(a: Interval, b: Interval, x: real)
    ensures a.Contains(x) || b.Contains(x) ==> Hull(a, b).Contains(x)
    ensures Within(a, Hull(a, b)) && Within(b, Hull(a, b))
  {
    LeTotalOrder(a.min, b.min, Fin(x));
    LeTotalOrder(Fin(x), a.max, b.max);
    LeTotalOrder(a.max, b.max, Fin(x));
    LeTotalOrder(b.min, a.min, Fin(x));
  }

  lemma HullCommutes(a: Interval, b: Interval)
    ensures Hull(a, b) == Hull(b, a)
  {
    LeTotalOrder(a.min, b.min, a.min);
    LeTotalOrder(a.max, b.max, a.max);
  }

  lemma HullIdempotent(a: Interval)
    ensures Hull(a, a) == a
  {
  }

  lemma SurroundsImpliesContains(i: Interval, x: real)
    ensures i.Surrounds(x) ==> i.Contains(x)
  {
  }

  /** Clamping an already clamped value changes nothing. */
  lemma ClampIdempotent(i: Interval, x: real)
    requires Le(i.min, i.max)
    ensures i.Clamp(x).Fin? ==> i.Clamp(i.Clamp(x).v) == i.Clamp(x)
  {
  }

  /** On a finite interval, `expand(delta)` adds delta to the size and keeps the midpoint. */
  lemma ExpandSizeAndMidpoint(i: Interval, delta: real)
    requires i.min.Fin? && i.max.Fin?
    ensures i.Expand(delta).Size() == Some(Fin(i.max.v - i.min.v + delta))
    ensures i.Expand(delta).min.v + i.Expand(delta).max.v == i.min.v + i.max.v
  {
  }

  /** Shifting keeps the size, moves membership with it, and both operand orders agree. */
  lemma ShiftProperties(i: Interval, d: real, x: real)
    ensures i.Shift(d).Size() == i.Size()
    ensures i.Contains(x) <==> i.Shift(d).Contains(x + d)
    ensures ShiftLeft(d, i) == i.Shift(d)
  {
  }

  lemma EmptyAndUniverse(x: real)
    ensures !Empty.Contains(x) && !Empty.Surrounds(x)
    ensures Universe.Contains(x) && Universe.Surrounds(x)
  {
  }
}
