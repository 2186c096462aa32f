/** Doubles together with the special values IEEE-754 adds to them. The
    ray-parameter bounds of every `hit` query are such values: the
    integrator asks with `t_max = infinity`, and the slab test of a bounding
    box divides by direction components that may be zero. Signed zeros are
    not distinguished. */
module Extended {

  datatype Ext = NaN | NegInf | Fin(v: real) | PosInf

  /** The position of a non-NaN value on the extended line. */
  function Rank(a: Ext): int
    requires a != NaN
  {
    match a
    case NegInf => 0
    case Fin(_) => 1
    case PosInf => 2
  }

  /** IEEE-754 `a < b`: false whenever either operand is NaN. */
  predicate Lt(a: Ext, b: Ext) {
    if a == NaN || b == NaN then false
    else if a.Fin? && b.Fin? then a.v < b.v
    else Rank(a) < Rank(b)
  }

  /** IEEE-754 `a <= b`: false whenever either operand is NaN. */
  predicate Le(a: Ext, b: Ext) {
    a != NaN && b != NaN && !Lt(b, a)
  }

  /** Without NaN, `<` is a strict total order and `<=` its reflexive
      closure. */
  lemma OrderProperties(a: Ext, b: Ext, c: Ext)
    requires a != NaN && b != NaN && c != NaN
    ensures !Lt(a, a)
    ensures Lt(a, b) || a == b || Lt(b, a)
    ensures Lt(a, b) && Lt(b, c) ==> Lt(a, c)
    ensures Le(a, b) <==> Lt(a, b) || a == b
    ensures Le(a, b) && Le(b, c) ==> Le(a, c)
  {
  }

  /** `ffmin` on doubles: `a <= b ? a : b`. A NaN in `a` is dropped, a NaN
      in `b` is returned. */
  function EMin(a: Ext, b: Ext): (r: Ext)
    ensures r == a || r == b
    ensures a != NaN && b != NaN ==> Le(r, a) && Le(r, b)
    ensures a == NaN || b == NaN ==> r == b
  {
    if Le(a, b) then a else b
  }

  /** `ffmax` on doubles: `a >= b ? a : b`, with the same NaN behaviour as
      `EMin`. */
  function EMax(a: Ext, b: Ext): (r: Ext)
    ensures r == a || r == b
    ensures a != NaN && b != NaN ==> Le(a, r) && Le(b, r)
    ensures a == NaN || b == NaN ==> r == b
  {
    if Le(b, a) then a else b
  }

  /** The IEEE-754 quotient `x / y` of two finite doubles. */
  function EDiv(x: real, y: real): (r: Ext)
    ensures y != 0.0 ==> r.Fin? && r.v * y == x
    ensures y == 0.0 && x == 0.0 ==> r == NaN
    ensures y == 0.0 && x != 0.0 ==> r == NegInf || r == PosInf
  {
    if y != 0.0 then Fin(x / y)
    else if 0.0 < x then PosInf
    else if x < 0.0 then NegInf
    else NaN
  }
}
