/** Folds over the complete hours of a window, which is what every reader of the hourly tables computes. */
module HourFold {
  import opened Base
  import opened World

  /** The first aligned hour from t on. */
  function CeilHour(t: int): (h: int)
    ensures h % HOUR == 0 && t <= h < t + HOUR
  {
    if t % HOUR == 0 then t else TruncHour(t) + HOUR
  }

  /** A fold over the complete hours in [from, to), hour by hour. */
  ghost function OverComplete<A>(t: Tables, part: int -> A, from: int, to: int, op: (A, A) -> A, unit: A): A
    decreases Max(to - from, 0)
  {
    if from >= to then unit
    else op(if IsComplete(t, from) then part(from) else unit, OverComplete(t, part, from + HOUR, to, op, unit))
  }

  ghost predicate HourByHour<A(!new)>(part: int -> A, rest: int -> A, h: int, op: (A, A) -> A) {
    rest(h) == op(part(h), rest(h + HOUR))
  }

  lemma {:induction false} NoHourMissing<A(!new)>(t: Tables, part: int -> A, rest: int -> A, from: int, to: int,
                                                  op: (A, A) -> A, unit: A)
    requires from % HOUR == 0 && to % HOUR == 0 && from <= to && rest(to) == unit
    requires forall h :: from <= h < to && h % HOUR == 0 ==> IsComplete(t, h)
    requires forall h :: from <= h < to && h % HOUR == 0 ==> HourByHour(part, rest, h, op)
    ensures OverComplete(t, part, from, to, op, unit) == rest(from)
    decreases Max(to - from, 0)
  {
    if from < to {
      AlignedGap(from, to);
      assert HourByHour(part, rest, from, op);
      NoHourMissing(t, part, rest, from + HOUR, to, op, unit);
    }
  }
}
