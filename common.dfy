/**
 * The helpers every service shares (common/src/lib.rs):
 *  - the "is anyone listening" gate over the shared event map;
 *  - the wire form of a `SystemTime`: whole milliseconds since the Unix
 *    epoch as a `u64`, 0 for instants before the epoch.
 *
 * A `SystemTime` is an instant counted in nanoseconds from the Unix epoch
 * (negative before it). On the Linux/Android targets the daemon runs on, the
 * seconds part is an `i64`, which bounds the instants that exist.
 */
module Common {

  import opened Wrappers

  const U32_LIMIT: int := 0x1_0000_0000
  const U64_LIMIT: int := 0x1_0000_0000_0000_0000
  const I64_MIN: int := -0x8000_0000_0000_0000
  const I64_MAX: int := 0x7FFF_FFFF_FFFF_FFFF

  type u32 = x: int | 0 <= x < U32_LIMIT
  type u64 = x: int | 0 <= x < U64_LIMIT
  type i64 = x: int | I64_MIN <= x <= I64_MAX

  /** Concatenation regroups freely and the empty sequence is its unit. */
  lemma Associate<T>(a: seq<T>, b: seq<T>, c: seq<T>)
    ensures a + b + c == a + (b + c) && a + [] == a
  {
  }

  // ---------------------------------------------------------------------
  // Event gate
  // ---------------------------------------------------------------------

  /** Key of the shared event map: one event of one object of one service. */
  datatype EventMapKey = EventMapKey(serviceId: u32, objectId: u32, eventId: u32)

  /** The shared event map: whether some dispatcher wants this event. */
  type EventMap = map<EventMapKey, bool>

  /**
   * `is_event_in_map`: true exactly when the key is present and mapped to
   * `true`; an absent key and a key mapped to `false` both say "nobody is
   * listening". It is a function of the map's value, so it cannot change it.
   */
  function IsEventInMap(m: EventMap, service: u32, obj: u32, event: u32): (listening: bool)
    ensures listening ==> EventMapKey(service, obj, event) in m
    ensures EventMapKey(service, obj, event) !in m ==> !listening
    ensures EventMapKey(service, obj, event) in m ==>
              (listening <==> m[EventMapKey(service, obj, event)])
  {
    var key := EventMapKey(service, obj, event);
    match if key in m then Some(m[key]) else None
    case Some(true) => true
    case Some(false) => false
    case None => false
  }

  /** Opening the gate of one key opens it for that key and touches no other key. */
  lemma GateFollowsItsOwnEntry(m: EventMap, k: EventMapKey, flag: bool, service: u32, obj: u32, event: u32)
    ensures IsEventInMap(m[k := flag], service, obj, event) ==
            if k == EventMapKey(service, obj, event) then flag
            else IsEventInMap(m, service, obj, event)
  {
  }

  /** Removing a key closes its gate and leaves every other gate as it was. */
  lemma GateClosedOnRemoval(m: EventMap, k: EventMapKey, service: u32, obj: u32, event: u32)
    ensures IsEventInMap(m - {k}, service, obj, event) ==
            if k == EventMapKey(service, obj, event) then false
            else IsEventInMap(m, service, obj, event)
  {
  }

  // ---------------------------------------------------------------------
  // SystemTime on the wire
  // ---------------------------------------------------------------------

  const NANOS_PER_MILLI: int := 1_000_000
  const NANOS_PER_SEC: int := 1_000_000_000

  /** An instant, in nanoseconds since the Unix epoch. */
  datatype SystemTime = SystemTime(nanos: int)

  const UNIX_EPOCH: SystemTime := SystemTime(0)

  /** The instants the platform can hold: seconds fit an `i64`. */
  predicate Representable(t: SystemTime) {
    I64_MIN * NANOS_PER_SEC <= t.nanos < (I64_MAX + 1) * NANOS_PER_SEC
  }

  /** `t` with its sub-millisecond part dropped (towards the epoch, for t at or after it). */
  function TruncateToMillis(t: SystemTime): SystemTime {
    SystemTime(t.nanos - t.nanos % NANOS_PER_MILLI)
  }

  /**
   * `Serialize for SystemTime`: the whole milliseconds since the epoch, or 0
   * before the epoch. `as_millis()` is a `u128` and `as _` keeps its low 64
   * bits; that wrap-around only matters more than 584 million years out.
   */
  function Serialize(t: SystemTime): (ms: u64)
    ensures t.nanos < 0 ==> ms == 0
    ensures 0 <= t.nanos < U64_LIMIT * NANOS_PER_MILLI ==>
              ms * NANOS_PER_MILLI <= t.nanos < (ms + 1) * NANOS_PER_MILLI
  {
    if t.nanos >= 0 then (t.nanos / NANOS_PER_MILLI) % U64_LIMIT else 0
  }

  /**
   * `Deserialize for SystemTime`: the epoch plus `ms` milliseconds. The
   * source unwraps `checked_add`, so an instant the platform cannot hold
   * would panic: that is this function's precondition.
   */
  function Deserialize(ms: u64): (t: SystemTime)
    requires Representable(SystemTime(ms * NANOS_PER_MILLI))
    ensures t.nanos >= 0 && t.nanos % NANOS_PER_MILLI == 0
    ensures Serialize(t) == ms
  {
    SystemTime(ms * NANOS_PER_MILLI)
  }

  /** Every `u64` the wire can carry names an instant the platform holds. */
  lemma EveryWireValueIsRepresentable(ms: u64)
    ensures Representable(SystemTime(ms * NANOS_PER_MILLI))
  {
  }

  /** Reading back a serialized instant at or after the epoch gives it truncated to milliseconds. */
  lemma DeserializeSerialize(t: SystemTime)
    requires 0 <= t.nanos < U64_LIMIT * NANOS_PER_MILLI
    ensures Representable(SystemTime(Serialize(t) * NANOS_PER_MILLI))
    ensures Deserialize(Serialize(t)) == TruncateToMillis(t)
  {
    var ms := Serialize(t);
    assert ms == t.nanos / NANOS_PER_MILLI;
  }

  /** Every instant before the epoch travels as the epoch itself. */
  lemma PreEpochTravelsAsEpoch(t: SystemTime)
    requires t.nanos < 0
    ensures Deserialize(Serialize(t)) == UNIX_EPOCH
  {
  }

  /** Serialization keeps the order of instants (up to the wrap-around). */
  lemma SerializeMonotonic(t1: SystemTime, t2: SystemTime)
    requires t1.nanos <= t2.nanos < U64_LIMIT * NANOS_PER_MILLI
    ensures Serialize(t1) <= Serialize(t2)
  {
  }
}
