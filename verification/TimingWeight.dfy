/** The timing semiring: src/itn/maxmin-weight.h and src/itn/timing-weight.h.

  A weight is a pair of a start in the max-min semiring and an end in the min-max semiring of the
  FST library.  Multiplying weights takes the earlier start and the later end. */
module TimingWeight {

  /** Floating-point values; NotANumber is the library's NoWeight. */
  datatype Value = NegInfinity | Finite(v: int) | PosInfinity | NotANumber

  predicate Member(a: Value) { !a.NotANumber? }

  predicate Leq(a: Value, b: Value)
  {
    match (a, b)
    case (NotANumber, _) => false
    case (_, NotANumber) => false
    case (NegInfinity, _) => true
    case (_, PosInfinity) => true
    case (Finite(x), Finite(y)) => x <= y
    case (_, _) => false
  }

  function MaxMinPlus(a: Value, b: Value): Value
  {
    if !Member(a) || !Member(b) then NotANumber else if Leq(a, b) then b else a
  }

  function MaxMinTimes(a: Value, b: Value): Value
  {
    if !Member(a) || !Member(b) then NotANumber else if Leq(a, b) then a else b
  }

  function MaxMinDivide(a: Value, b: Value): Value
  {
    if !Member(a) || !Member(b) then NotANumber else if Leq(a, b) then a else NotANumber
  }

  /** The library's min-max semiring, the mirror image. */
  function MinMaxPlus(a: Value, b: Value): Value { MaxMinTimes(a, b) }

  function MinMaxTimes(a: Value, b: Value): Value { MaxMinPlus(a, b) }

  datatype Timing = Timing(start: Value, end: Value)

  const ONE := Timing(PosInfinity, NegInfinity)

  const ZERO := Timing(NegInfinity, PosInfinity)

  predicate Valid(w: Timing) { Member(w.start) && Member(w.end) }

  function Plus(a: Timing, b: Timing): Timing
  {
    Timing(MaxMinPlus(a.start, b.start), MinMaxPlus(a.end, b.end))
  }

  function Times(a: Timing, b: Timing): Timing
  {
    Timing(MaxMinTimes(a.start, b.start), MinMaxTimes(a.end, b.end))
  }

  /** The semiring properties the weight type declares. */
  lemma SemiringLaws(a: Timing, b: Timing, c: Timing)
    requires Valid(a) && Valid(b) && Valid(c)
    ensures Times(a, b) == Times(b, a) && Plus(a, b) == Plus(b, a)
    ensures Times(Times(a, b), c) == Times(a, Times(b, c))
    ensures Plus(Plus(a, b), c) == Plus(a, Plus(b, c))
    ensures Times(a, Plus(b, c)) == Plus(Times(a, b), Times(a, c))
    ensures Times(a, ONE) == a && Times(a, ZERO) == ZERO && Plus(a, ZERO) == a
    ensures Plus(a, a) == a && Times(a, a) == a
  {
  }

  /** Division solves its equation exactly when a solution exists, and otherwise is no weight. */
  lemma DivideSolves(a: Value, b: Value)
    requires Member(a) && Member(b)
    ensures Member(MaxMinDivide(a, b)) <==> exists x :: Member(x) && MaxMinTimes(b, x) == a
    ensures Member(MaxMinDivide(a, b)) ==> MaxMinTimes(b, MaxMinDivide(a, b)) == a
  {
    if Member(MaxMinDivide(a, b)) {
      assert MaxMinTimes(b, MaxMinDivide(a, b)) == a;
    }
  }

  // ---------------------------------------------------------------- products

  /** A weight that carries a time interval. */
  predicate Proper(w: Timing) { w.start.Finite? && w.end.Finite? }

  /** The product of ws[a..b]. */
  function Span(ws: seq<Timing>, a: nat, b: nat): Timing
    requires a <= b <= |ws|
    decreases b
  {
    if a == b then ONE else Times(Span(ws, a, b - 1), ws[b - 1])
  }

  /** The interval [lo, hi] is the hull of the weights: both bounds are attained and none is passed. */
  ghost predicate IsHull(ws: seq<Timing>, a: nat, b: nat, lo: int, hi: int)
    requires a <= b <= |ws|
  {
    && (forall i :: a <= i < b ==> Proper(ws[i]) && lo <= ws[i].start.v && ws[i].end.v <= hi)
    && (exists i :: a <= i < b && ws[i].start == Finite(lo))
    && (exists i :: a <= i < b && ws[i].end == Finite(hi))
  }

  /** The product of one or more proper weights is their hull. */
  lemma {:induction false} SpanIsHull(ws: seq<Timing>, a: nat, b: nat)
    requires a < b <= |ws| && forall i :: 0 <= i < |ws| ==> Proper(ws[i])
    ensures Proper(Span(ws, a, b))
    ensures IsHull(ws, a, b, Span(ws, a, b).start.v, Span(ws, a, b).end.v)
    decreases b
  {
    var w := Span(ws, a, b);
    if a + 1 < b {
      SpanIsHull(ws, a, b - 1);
      var v := Span(ws, a, b - 1);
      var i :| a <= i < b - 1 && ws[i].start == Finite(v.start.v);
      var j :| a <= j < b - 1 && ws[j].end == Finite(v.end.v);
      assert ws[if v.start.v <= ws[b - 1].start.v then i else b - 1].start == w.start;
      assert ws[if v.end.v >= ws[b - 1].end.v then j else b - 1].end == w.end;
    } else {
      assert Span(ws, a, a) == ONE;
      assert ws[a].start == w.start && ws[a].end == w.end;
    }
  }

  lemma {:induction false} SpanIsValid(ws: seq<Timing>, a: nat, b: nat)
    requires a <= b <= |ws| && forall i :: 0 <= i < |ws| ==> Valid(ws[i])
    ensures Valid(Span(ws, a, b))
    decreases b
  {
    if a < b { SpanIsValid(ws, a, b - 1); }
  }

  /** Products of adjacent stretches multiply to the product of the whole. */
  lemma {:induction false} SpanJoin(ws: seq<Timing>, a: nat, m: nat, b: nat)
    requires a <= m <= b <= |ws| && forall i :: 0 <= i < |ws| ==> Valid(ws[i])
    ensures Times(Span(ws, a, m), Span(ws, m, b)) == Span(ws, a, b)
    decreases b
  {
    SpanIsValid(ws, a, m);
    if m < b {
      SpanJoin(ws, a, m, b - 1);
      SpanIsValid(ws, m, b - 1);
      SemiringLaws(Span(ws, a, m), Span(ws, m, b - 1), ws[b - 1]);
    } else {
      SemiringLaws(Span(ws, a, m), ONE, ONE);
    }
  }
}
