/** The half-open interval test shared by the availability search and the
    booking conflict check. */
module Intervals {
  import opened Models

  /** The stored reservation `[rFrom, rTo)` collides with the window
      `[from, to)`, written exactly as the queries write it:
      `!(r.To <= from || r.From >= to)`. */
  predicate Overlaps(rFrom: Ticks, rTo: Ticks, from: Ticks, to: Ticks): (b: bool)
    ensures b <==> rFrom < to && from < rTo
  {
    !(rTo <= from || rFrom >= to)
  }

  /** Which of the two intervals plays the stored reservation does not matter. */
  lemma OverlapsSymmetric(aFrom: Ticks, aTo: Ticks, bFrom: Ticks, bTo: Ticks)
    ensures Overlaps(aFrom, aTo, bFrom, bTo) == Overlaps(bFrom, bTo, aFrom, aTo)
  {
  }

  /** Intervals that only share an end point do not collide. */
  lemma TouchingDoesNotOverlap(aFrom: Ticks, meet: Ticks, bTo: Ticks)
    ensures !Overlaps(aFrom, meet, meet, bTo)
    ensures !Overlaps(meet, bTo, aFrom, meet)
  {
  }

  /** A non-empty interval collides with itself, so the same window cannot be
      booked twice on one room. */
  lemma NonEmptyOverlapsItself(from: Ticks, to: Ticks)
    requires from < to
    ensures Overlaps(from, to, from, to)
  {
  }
}
