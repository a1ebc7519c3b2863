/** The date comparisons the picker uses: date-fns `isSameDay`, `isBefore`,
    `isAfter`, `isEqual`, and the component's own inclusive/exclusive `isBetween`. */
module Compare {
  import opened Wrappers
  import opened Calendar

  /** `isSameDay`: the two instants fall on the same calendar day, that is,
      on the same day ordinal. */
  function SameDay(a: Instant, b: Instant): (same: bool)
    ensures ValidInstant(a) && ValidInstant(b) ==> (same <==> Ordinal(a.date) == Ordinal(b.date))
  {
    OrdinalOrder(a.date, b.date);
    a.date == b.date
  }

  /** `isBefore(a, b)`: `a` is strictly earlier than `b`, i.e. its day comes
      first in the calendar, or the day is the same and its time is earlier. */
  function IsBefore(a: Instant, b: Instant): (before: bool)
    ensures ValidInstant(a) && ValidInstant(b) ==>
      (before <==> Precedes(a.date, b.date) || (a.date == b.date && a.ms < b.ms))
  {
    StampOrder(a, b);
    Stamp(a) < Stamp(b)
  }

  /** `isAfter(a, b)`: `a` is strictly later than `b`. */
  function IsAfter(a: Instant, b: Instant): (after: bool)
    ensures ValidInstant(a) && ValidInstant(b) ==>
      (after <==> Precedes(b.date, a.date) || (a.date == b.date && b.ms < a.ms))
  {
    StampOrder(b, a);
    Stamp(a) > Stamp(b)
  }

  /** `isEqual(a, b)`: for valid instants, the very same day and time. */
  function IsEqual(a: Instant, b: Instant): (equal: bool)
    ensures ValidInstant(a) && ValidInstant(b) ==> (equal <==> a == b)
  {
    StampOrder(a, b);
    Stamp(a) == Stamp(b)
  }

  /** The error `isBetween` throws for an unknown inclusivity token. */
  datatype Error = InvalidInclusivity(token: string)

  /** The four inclusivity tokens `isBetween` accepts. */
  const Inclusivities: seq<string> := ["()", "[]", "(]", "[)"]

  /** The component's `isBetween(date, from, to, inclusivity = "()")`: throws
      for any token but the four, and otherwise checks the lower bound with
      the token's first character (`[` inclusive, `(` exclusive) and the upper
      bound with its second (`]` inclusive, `)` exclusive). */
  function IsBetween(date: Instant, from: Instant, to: Instant, inclusivity: string := "()"): (r: Result<bool, Error>)
    ensures r.Failure? <==> inclusivity !in Inclusivities
    ensures r.Failure? ==> r.error == InvalidInclusivity(inclusivity)
    ensures r == Success(true) ==> Stamp(from) <= Stamp(date) <= Stamp(to)
    ensures r == Success(false) ==> !(Stamp(from) < Stamp(date) < Stamp(to))
  {
    if inclusivity !in Inclusivities then
      Failure(InvalidInclusivity(inclusivity))
    else
      var isBeforeEqual := inclusivity[0] == '[';
      var isAfterEqual := inclusivity[1] == ']';
      Success(
        (if isBeforeEqual then IsEqual(from, date) || IsBefore(from, date) else IsBefore(from, date)) &&
        (if isAfterEqual then IsEqual(to, date) || IsAfter(to, date) else IsAfter(to, date)))
  }

  /** Each accepted token denotes an interval of instants: `[` and `]` close it, `(` and `)` open it. */
  lemma BetweenIsInterval(date: Instant, from: Instant, to: Instant)
    ensures IsBetween(date, from, to, "[]") == Success(Stamp(from) <= Stamp(date) <= Stamp(to))
    ensures IsBetween(date, from, to, "()") == Success(Stamp(from) < Stamp(date) < Stamp(to))
    ensures IsBetween(date, from, to, "[)") == Success(Stamp(from) <= Stamp(date) < Stamp(to))
    ensures IsBetween(date, from, to, "(]") == Success(Stamp(from) < Stamp(date) <= Stamp(to))
  {
  }

  /** Without a token the test is exclusive on both sides. */
  lemma BetweenDefaultIsOpen(date: Instant, from: Instant, to: Instant)
    ensures IsBetween(date, from, to) == IsBetween(date, from, to, "()")
  {
  }

  /** With `[]` both bounds of a forward range are between; with `()` neither is. */
  lemma BetweenEndpoints(from: Instant, to: Instant)
    requires !IsAfter(from, to)
    ensures IsBetween(from, from, to, "[]") == Success(true)
    ensures IsBetween(to, from, to, "[]") == Success(true)
    ensures IsBetween(from, from, to, "()") == Success(false)
    ensures IsBetween(to, from, to, "()") == Success(false)
  {
    BetweenIsInterval(from, from, to);
    BetweenIsInterval(to, from, to);
  }

  /** A backwards range (`from` after `to`) contains nothing, whatever the token. */
  lemma BetweenBackwardsEmpty(date: Instant, from: Instant, to: Instant, inclusivity: string)
    requires IsAfter(from, to)
    requires inclusivity in Inclusivities
    ensures IsBetween(date, from, to, inclusivity) == Success(false)
  {
  }

  /** Making a bound inclusive only adds instants: `()` implies `(]` and `[)`, each of which implies `[]`. */
  lemma BetweenWidens(date: Instant, from: Instant, to: Instant)
    ensures IsBetween(date, from, to, "()") == Success(true) ==>
              IsBetween(date, from, to, "(]") == Success(true) && IsBetween(date, from, to, "[)") == Success(true)
    ensures IsBetween(date, from, to, "(]") == Success(true) ==> IsBetween(date, from, to, "[]") == Success(true)
    ensures IsBetween(date, from, to, "[)") == Success(true) ==> IsBetween(date, from, to, "[]") == Success(true)
  {
  }
}
