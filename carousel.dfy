/** The card carousel that the News and Saved Posts screens share: the pan-gesture
    rule that moves the current index by one card, and the stacking order of the
    cards. Both screens write the same rule against their own list
    (`filteredData`, `savedPosts`); it is stated once here. */
module Carousel {

  /** `event.velocityX` when a pan ends: a value whose `typeof` is not 'number',
      the number NaN, or an ordinary number (its magnitude never matters, only its sign). */
  datatype Velocity = NonNumeric | NaN | Num(x: real)

  /** `velocityX < 0` as JavaScript evaluates it (NaN compares false). */
  predicate IsLeftward(v: Velocity)
  {
    v.Num? && v.x < 0.0
  }

  /** `velocityX > 0` as JavaScript evaluates it (NaN compares false). */
  predicate IsRightward(v: Velocity)
  {
    v.Num? && v.x > 0.0
  }

  /** The index after one pan ends on a carousel of `length` cards. A leftward fling
      advances one card unless the last card is showing; a rightward fling goes back
      one card unless the first is showing; nothing moves while the spring runs or
      when the velocity is not a number. */
  function SwipeStep(index: int, length: int, animating: bool, v: Velocity): (r: int)
    ensures r == index || r == index + 1 || r == index - 1
    ensures r == index + 1 ==> index < length - 1
    ensures r == index - 1 ==> index > 0
  {
    if animating then index
    else if v.NonNumeric? then index
    else if IsLeftward(v) && index < length - 1 then index + 1
    else if IsRightward(v) && index > 0 then index - 1
    else index
  }

  /** The index names a card, or is the initial 0 of an empty carousel. */
  predicate InRange(index: int, length: int)
  {
    0 <= index && (index < length || index == 0)
  }

  /** A swipe never moves a valid index out of range. */
  lemma SwipeStaysInRange(index: int, length: int, animating: bool, v: Velocity)
    requires InRange(index, length)
    ensures InRange(SwipeStep(index, length, animating, v), length)
  {
  }

  /** A swipe is ignored while animating, for a non-numeric or NaN velocity, and for velocity 0. */
  lemma SwipeIgnored(index: int, length: int, animating: bool, v: Velocity)
    requires animating || !v.Num? || v.x == 0.0
    ensures SwipeStep(index, length, animating, v) == index
  {
  }

  /** The index moves forward exactly when the fling is leftward, no spring runs and a later card exists;
      it moves back exactly when the fling is rightward, no spring runs and an earlier card exists. */
  lemma SwipeDirection(index: int, length: int, animating: bool, v: Velocity)
    ensures SwipeStep(index, length, animating, v) == index + 1 <==> !animating && IsLeftward(v) && index < length - 1
    ensures SwipeStep(index, length, animating, v) == index - 1 <==> !animating && IsRightward(v) && index > 0
  {
  }

  /** An index left beyond the last card (the list shrank under it) is never pushed further out. */
  lemma SwipeBeyondEnd(index: int, length: int, animating: bool, v: Velocity)
    requires index >= length && index > 0
    ensures SwipeStep(index, length, animating, v) <= index
    ensures !animating && IsRightward(v) ==> SwipeStep(index, length, animating, v) == index - 1
  {
  }

  /** The index after a run of pans, none of them during a spring: each pan moves at most
      one card, and never more than the run has leftward or rightward pans. */
  function Swipes(index: int, length: int, vs: seq<Velocity>): (r: int)
    ensures index - |vs| <= r <= index + |vs|
    decreases vs
  {
    if vs == [] then index else Swipes(SwipeStep(index, length, false, vs[0]), length, vs[1..])
  }

  /** Any run of pans keeps a valid index valid. */
  lemma {:induction false} SwipesStayInRange(index: int, length: int, vs: seq<Velocity>)
    requires InRange(index, length)
    ensures InRange(Swipes(index, length, vs), length)
    decreases vs
  {
    if vs != [] {
      SwipeStaysInRange(index, length, false, vs[0]);
      SwipesStayInRange(SwipeStep(index, length, false, vs[0]), length, vs[1..]);
    }
  }

  /** `k` leftward flings from card `index` reach card `index + k`, stopping at the last card. */
  lemma {:induction false} LeftSwipesReach(index: int, length: int, vs: seq<Velocity>)
    requires 0 <= index < length
    requires forall j :: 0 <= j < |vs| ==> IsLeftward(vs[j])
    ensures Swipes(index, length, vs) == if index + |vs| < length then index + |vs| else length - 1
    decreases vs
  {
    if vs != [] {
      LeftSwipesReach(SwipeStep(index, length, false, vs[0]), length, vs[1..]);
    }
  }

  /** `zIndex` of the cell at position `i` among `length` cells: earlier cards are drawn above
      later ones, and every card of the list gets a positive layer. */
  function ZIndex(length: int, i: int): (z: int)
    ensures 0 <= i < length ==> 1 <= z <= length
    ensures i == 0 ==> z == length
  {
    length - i
  }

  /** Layers strictly decrease along the list, so no two cards share one. */
  lemma ZIndexDecreasing(length: int, i: int, j: int)
    requires i < j
    ensures ZIndex(length, i) > ZIndex(length, j)
  {
  }
}
