/**
 The entities the composables move around: JSON records with an `id` and, for
 some resources, an optional `schedules_id` counter. Everything else in a record
 is a payload `P` that no unit inspects.
 */
module Entities {
  import Decimal

  /** `Number.MAX_SAFE_INTEGER`, 2^53 - 1. */
  const MaxSafeInteger := 0x1F_FFFF_FFFF_FFFF

  /**
   The integers a JavaScript number holds exactly. Within this range
   `Number(text)` of a decimal string is exact and `${n}` prints plain digits.
   */
  type SafeInteger = n: int | -MaxSafeInteger <= n <= MaxSafeInteger

  /**
   An `id` value as parsed from JSON: a number, or a string holding the decimal
   text of an integer. Strict equality (`===`) tells the two apart even when the
   string reads as the number; `Number(id)` and `${id}` do not.
   */
  datatype Id = NumberId(n: SafeInteger) | TextId(n: SafeInteger)

  /** `Number(item.id)`. */
  function IdNumber(id: Id): int {
    id.n
  }

  /** `${item.id}`: a number and its canonical string render the same. */
  function IdText(id: Id): string {
    Decimal.IntText(id.n)
  }

  /** The `schedules_id` field: absent from the record, present as `null`, or a number. */
  datatype SchedulesField = Missing | Null | Value(n: SafeInteger)

  datatype Entity<P> = Entity(id: Id, schedulesId: SchedulesField, rest: P)

  /** `'schedules_id' in item`: true for a present field, `null` included. */
  predicate HasSchedulesField<P>(e: Entity<P>) {
    !e.schedulesId.Missing?
  }

  /** `item.schedules_id ?? 0`. */
  function SchedulesOrZero<P>(e: Entity<P>): int {
    match e.schedulesId
    case Value(n) => n
    case _ => 0
  }

  /** `k` is the first position of `items` whose id is `id` (strict equality). */
  ghost predicate IsFirstMatch<P>(items: seq<Entity<P>>, id: Id, k: int) {
    && 0 <= k < |items|
    && items[k].id == id
    && forall j :: 0 <= j < k ==> items[j].id != id
  }

  /** No entry of `items` has id `id` (strict equality). */
  ghost predicate NoMatch<P>(items: seq<Entity<P>>, id: Id) {
    forall j :: 0 <= j < |items| ==> items[j].id != id
  }
}
