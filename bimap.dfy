/**
 * A one-to-one map between left values and right values, kept as two
 * mutually inverse maps (the `BiMap` the shortcut table is built on).
 *
 * `Insert` follows the overwriting semantics of `BiMap::insert`: any pair
 * sharing the new left value and any pair sharing the new right value are
 * removed first, and the removed pairs are reported.  `InsertNoOverwrite`
 * refuses the pair when either side is already bound.
 */
module Bimaps {
  import opened Wrappers

  datatype Bimap<L(==), R(==)> = Bimap(fwd: map<L, R>, bwd: map<R, L>)

  /** The two directions are inverse to each other. */
  ghost predicate Valid<L, R>(m: Bimap<L, R>)
  {
    && (forall l | l in m.fwd :: m.fwd[l] in m.bwd && m.bwd[m.fwd[l]] == l)
    && (forall r | r in m.bwd :: m.bwd[r] in m.fwd && m.fwd[m.bwd[r]] == r)
  }

  /** `l` is paired with `r`. */
  predicate Paired<L(==), R(==)>(m: Bimap<L, R>, l: L, r: R)
  {
    l in m.fwd && m.fwd[l] == r
  }

  function Empty<L(==), R(==)>(): (m: Bimap<L, R>)
    ensures Valid(m)
    ensures |m.fwd| == 0 && |m.bwd| == 0
  {
    Bimap(map[], map[])
  }

  /** What an overwriting insert displaced. */
  datatype Overwritten<L, R> =
    | Neither
    | Left(l: L, r: R)            // the pair that shared the left value
    | Right(l: L, r: R)           // the pair that shared the right value
    | Pair(l: L, r: R)            // the very same pair was already present
    | Both(left: (L, R), right: (L, R))

  function RemoveByLeft<L(==), R(==)>(m: Bimap<L, R>, l: L): Bimap<L, R>
  {
    if l in m.fwd then Bimap(m.fwd - {l}, m.bwd - {m.fwd[l]}) else m
  }

  function RemoveByRight<L(==), R(==)>(m: Bimap<L, R>, r: R): Bimap<L, R>
  {
    if r in m.bwd then Bimap(m.fwd - {m.bwd[r]}, m.bwd - {r}) else m
  }

  function InsertUnchecked<L(==), R(==)>(m: Bimap<L, R>, l: L, r: R): Bimap<L, R>
  {
    Bimap(m.fwd[l := r], m.bwd[r := l])
  }

  /** Overwriting insert: returns the new map and what was displaced. */
  function Insert<L(==), R(==)>(m: Bimap<L, R>, l: L, r: R): (Bimap<L, R>, Overwritten<L, R>)
  {
    var m1 := RemoveByLeft(m, l);
    var m2 := RemoveByRight(m1, r);
    var ov :=
      if l in m.fwd && r in m1.bwd then Both((l, m.fwd[l]), (m1.bwd[r], r))
      else if l in m.fwd && m.fwd[l] == r then Pair(l, r)
      else if l in m.fwd then Left(l, m.fwd[l])
      else if r in m1.bwd then Right(m1.bwd[r], r)
      else Neither;
    (InsertUnchecked(m2, l, r), ov)
  }

  /** Non-overwriting insert: the pair comes back as the error when either side is bound. */
  function InsertNoOverwrite<L(==), R(==)>(m: Bimap<L, R>, l: L, r: R): Result<Bimap<L, R>, (L, R)>
  {
    if l in m.fwd || r in m.bwd then Err((l, r)) else Ok(InsertUnchecked(m, l, r))
  }

  /**
   * After an overwriting insert the map is still one-to-one, `l` and `r`
   * are paired in both directions, and every other pair survives exactly
   * when it shares neither side with the new one.
   */
  lemma InsertSpec<L, R>(m: Bimap<L, R>, l: L, r: R)
    requires Valid(m)
    ensures Valid(Insert(m, l, r).0)
    ensures Insert(m, l, r).0.fwd[l] == r && Insert(m, l, r).0.bwd[r] == l
    ensures forall a, b :: Paired(Insert(m, l, r).0, a, b) <==>
      (a == l && b == r) || (a != l && b != r && Paired(m, a, b))
  {
    var m1 := RemoveByLeft(m, l);
    var m2 := RemoveByRight(m1, r);
    assert Valid(m1);
    assert Valid(m2);
    assert l !in m2.fwd && r !in m2.bwd;
    forall a, b
      ensures Paired(m2, a, b) <==> (a != l && b != r && Paired(m, a, b))
    {
    }
  }

  /** The displaced-pair report names exactly the bindings that were lost. */
  lemma InsertOverwritten<L, R>(m: Bimap<L, R>, l: L, r: R)
    requires Valid(m)
    ensures Insert(m, l, r).1 == Neither <==> l !in m.fwd && r !in m.bwd
    ensures Insert(m, l, r).1 == Pair(l, r) <==> Paired(m, l, r)
    ensures l in m.fwd && r in m.bwd && m.fwd[l] != r ==>
      Insert(m, l, r).1 == Both((l, m.fwd[l]), (m.bwd[r], r))
    ensures l in m.fwd && r !in m.bwd ==> Insert(m, l, r).1 == Left(l, m.fwd[l])
    ensures l !in m.fwd && r in m.bwd ==> Insert(m, l, r).1 == Right(m.bwd[r], r)
  {
  }

  /** A refused non-overwriting insert leaves the map as it was (the caller keeps `m`); an accepted one adds exactly the pair. */
  lemma InsertNoOverwriteSpec<L, R>(m: Bimap<L, R>, l: L, r: R)
    requires Valid(m)
    ensures InsertNoOverwrite(m, l, r).Err? <==> l in m.fwd || r in m.bwd
    ensures InsertNoOverwrite(m, l, r).Err? ==> InsertNoOverwrite(m, l, r).error == (l, r)
    ensures InsertNoOverwrite(m, l, r).Ok? ==>
      var m' := InsertNoOverwrite(m, l, r).value;
      && Valid(m')
      && m' == Insert(m, l, r).0
      && forall a, b :: Paired(m', a, b) <==> (a == l && b == r) || Paired(m, a, b)
  {
    if l !in m.fwd && r !in m.bwd {
      InsertSpec(m, l, r);
    }
  }

  /** In a one-to-one map the reverse lookup agrees with the forward one. */
  lemma ReverseAgrees<L, R>(m: Bimap<L, R>, l: L, r: R)
    requires Valid(m)
    ensures Paired(m, l, r) <==> r in m.bwd && m.bwd[r] == l
  {
  }
}
