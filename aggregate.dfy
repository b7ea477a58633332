/**
 * The event-sourcing core: event numbers, aggregate versions, an aggregate
 * hydrated from its events, and an identified entity around it.
 *
 * The user's aggregate type and its events are type parameters; applying an
 * event to an aggregate state (`AggregateEvent::apply_to`) is a function
 * `applyTo: (E, A) -> A` that every applying operation takes as a parameter.
 */
module EventSourcing {
  import opened Wrappers
  import opened Integers

  /** `std::cmp::Ordering`. */
  datatype Ordering = Less | Equal | Greater

  /** The natural order of numbers, as `Ord::cmp` on unsigned integers gives it. */
  function CompareNat(a: nat, b: nat): (o: Ordering)
    ensures o == Equal <==> a == b
    ensures o == Less <==> a < b
  {
    if a < b then Less else if a == b then Equal else Greater
  }

  /** Errors of aggregate operations. */
  datatype AggregateError =
    | VersionOverflow
    | VersionMismatch(expected: Version, actual: Version)
    | InvalidSequence

  /** The sequence number of an applied event; the first event has number 1. */
  datatype EventNumber = EventNumber(raw: NonZeroU64)
  {
    /** `EventNumber::get`: the raw, never-zero value. */
    function Get(): (n: U64)
      ensures n >= 1
      ensures EventNumber(n) == this
    {
      raw
    }

    /** `Ord for EventNumber`: the order of the raw values. */
    function Cmp(other: EventNumber): (o: Ordering)
      ensures o == CompareNat(Get(), other.Get())
      ensures o == Equal <==> this == other
    {
      CompareNat(raw, other.raw)
    }

    /**
     * `EventNumber::incr`, which overwrites `self`: `next` is the new value of
     * `self`. A checked add refuses to go past `u64::MAX`, and then `self` is
     * left as it was.
     */
    method Incr() returns (next: EventNumber, r: Outcome<AggregateError>)
      ensures r == Pass <==> raw < U64_MAX
      ensures r != Pass ==> r == Fail(VersionOverflow) && next == this
      ensures r == Pass ==> next.raw == raw + 1
    {
      if raw == U64_MAX {
        return this, Fail(VersionOverflow);
      }
      next := EventNumber(raw + 1);
      r := Pass;
    }
  }

  /** `EventNumber::MIN_VALUE`. */
  const MIN_VALUE: EventNumber := EventNumber(1)

  /** The version of an aggregate: no event applied yet, or the number of the last one. */
  datatype Version = Initial | Number(number: EventNumber)
  {
    /** The plain number this version stands for: 0 for `Initial`. */
    function Raw(): U64 {
      match this
      case Initial => 0
      case Number(n) => n.raw
    }

    /** `Version::new`: 0 is `Initial`, anything else is the number of the last event. */
    static function New(number: U64): (v: Version)
      ensures v.Raw() == number
      ensures v == Initial <==> number == 0
    {
      if number == 0 then Initial else Number(EventNumber(number))
    }

    /**
     * The derived `Ord`: `Initial` before every `Number`, numbers by their
     * event number. It is the numeric order of the raw values.
     */
    function Cmp(other: Version): (o: Ordering)
      ensures o == CompareNat(Raw(), other.Raw())
    {
      match (this, other)
      case (Initial, Initial) => Equal
      case (Initial, Number(_)) => Less
      case (Number(_), Initial) => Greater
      case (Number(a), Number(b)) => a.Cmp(b)
    }

    /** The version after one more event, if a `u64` can still number it. */
    function Successor(): (s: Option<Version>)
      ensures s.Some? <==> Raw() < U64_MAX
      ensures s.Some? ==> s.value.Raw() == Raw() + 1
    {
      match this
      case Initial => Some(Number(MIN_VALUE))
      case Number(n) => if n.raw < U64_MAX then Some(Number(EventNumber(n.raw + 1))) else None
    }

    /**
     * `Version::incr`, which overwrites `self`: `next` is the new value of
     * `self`. `Initial` becomes event number 1; a number is incremented by
     * `EventNumber::incr`, which fails at `u64::MAX` and then keeps it.
     */
    method Incr() returns (next: Version, r: Outcome<AggregateError>)
      ensures r == Pass <==> Raw() < U64_MAX
      ensures r == Pass ==> Successor() == Some(next)
      ensures r != Pass ==> r == Fail(VersionOverflow) && next == this
    {
      match this
      case Initial =>
        next, r := Number(MIN_VALUE), Pass;
      case Number(n) =>
        var en;
        en, r := n.Incr();
        next := Number(en);
    }

    /**
     * `Version::validate_sequence`: this version directly follows `previous`.
     * A raw value of `u64::MAX` has no successor, so nothing follows it.
     */
    function ValidateSequence(previous: Version): (r: Outcome<AggregateError>)
      ensures r == Pass <==> Raw() == previous.Raw() + 1
      ensures r != Pass ==> r == Fail(InvalidSequence)
    {
      match (previous, this)
      case (Initial, Number(n)) =>
        if n == MIN_VALUE then Pass else Fail(InvalidSequence)
      case (Number(prev), Number(curr)) =>
        if prev.raw < U64_MAX && curr.raw == prev.raw + 1 then Pass else Fail(InvalidSequence)
      case _ => Fail(InvalidSequence)
    }

    /**
     * `validate_sequence` as written: `prev.get() + 1` is a plain `u64`
     * addition, which panics in a debug build when `prev` is `u64::MAX`
     * (`None` here).
     */
    function ValidateSequenceAsWritten(previous: Version): (r: Option<Outcome<AggregateError>>)
      ensures r.None? <==> previous.Raw() == U64_MAX && Number?
      ensures r.Some? ==> r.value == ValidateSequence(previous)
    {
      match (previous, this)
      case (Initial, Number(n)) =>
        Some(if n == MIN_VALUE then Pass else Fail(InvalidSequence))
      case (Number(prev), Number(curr)) =>
        if prev.raw + 1 > U64_MAX then None
        else Some(if curr.raw == prev.raw + 1 then Pass else Fail(InvalidSequence))
      case _ => Some(Fail(InvalidSequence))
    }
  }

  /** `Version::default`. */
  const DEFAULT_VERSION: Version := Initial

  /** `Version::new` and `Raw` are inverse to each other. */
  lemma VersionNewRaw(v: Version, n: U64)
    ensures Version.New(v.Raw()) == v
    ensures Version.New(n).Raw() == n
  {
  }

  /** A version validates against `previous` exactly when it is `previous`'s successor. */
  lemma ValidateSequenceIsSuccessor(previous: Version, v: Version)
    ensures v.ValidateSequence(previous) == Pass <==> previous.Successor() == Some(v)
  {
    if previous.Successor() == Some(v) {
      assert v.Raw() == previous.Raw() + 1;
    }
    if v.ValidateSequence(previous) == Pass {
      var s := previous.Successor();
      assert s.Some?;
      VersionNewRaw(s.value, 0);
      VersionNewRaw(v, 0);
    }
  }

  /** Even a successful increment is not validated by the as-written check at the top. */
  lemma ValidateSequencePanicsAtMax(curr: EventNumber)
    ensures Number(curr).ValidateSequenceAsWritten(Number(EventNumber(U64_MAX))).None?
    ensures Number(curr).ValidateSequence(Number(EventNumber(U64_MAX))) == Fail(InvalidSequence)
  {
  }

  /**
   * The state after applying `events`, the first one first, to `s`: the left
   * fold of `applyTo`.
   */
  function Fold<E, A>(applyTo: (E, A) -> A, s: A, events: seq<E>): A {
    if events == [] then s
    else applyTo(events[|events| - 1], Fold(applyTo, s, events[..|events| - 1]))
  }

  /** Applying two batches in turn is applying their concatenation. */
  lemma {:induction false} FoldAppend<E, A>(applyTo: (E, A) -> A, s: A, a: seq<E>, b: seq<E>)
    ensures Fold(applyTo, s, a + b) == Fold(applyTo, Fold(applyTo, s, a), b)
  {
    if b != [] {
      var ab := a + b;
      assert ab[..|ab| - 1] == a + b[..|b| - 1];
      assert ab[|ab| - 1] == b[|b| - 1];
      FoldAppend(applyTo, s, a, b[..|b| - 1]);
    } else {
      assert a + b == a;
    }
  }

  /**
   * An aggregate loaded from a source: the version of the last applied event,
   * the version of the snapshot it was loaded from, and the state.
   */
  class HydratedAggregate<A> {
    var version: Version
    var snapshotVersion: Option<Version>
    var state: A

    /** `HydratedAggregate::new`: a fresh aggregate around `state`. */
    constructor New(state: A)
      ensures version == Initial && snapshotVersion == None && this.state == state
    {
      version := Initial;
      snapshotVersion := None;
      this.state := state;
    }

    /** `HydratedAggregate::default`, where `zero` is `A::default()`. */
    constructor Default(zero: A)
      ensures version == DEFAULT_VERSION && snapshotVersion == None && state == zero
    {
      version := DEFAULT_VERSION;
      snapshotVersion := None;
      state := zero;
    }

    /**
     * `apply`: applies `event` to the state, then increments the version. The
     * state is changed even when the increment then fails on overflow.
     */
    method Apply<E>(event: E, applyTo: (E, A) -> A) returns (r: Outcome<AggregateError>)
      modifies this
      ensures state == applyTo(event, old(state))
      ensures snapshotVersion == old(snapshotVersion)
      ensures r == Pass <==> old(version).Raw() < U64_MAX
      ensures r == Pass ==> old(version).Successor() == Some(version)
      ensures r != Pass ==> r == Fail(VersionOverflow) && version == old(version)
    {
      state := applyTo(event, state);
      version, r := version.Incr();
    }

    /**
     * `apply_events`: applies the events in order and stops at the first
     * error. Each success advances the version by one. On overflow the event
     * that overflowed has still been applied to the state.
     */
    method ApplyEvents<E>(events: seq<E>, applyTo: (E, A) -> A) returns (r: Outcome<AggregateError>)
      modifies this
      ensures snapshotVersion == old(snapshotVersion)
      ensures r == Pass <==> old(version).Raw() + |events| <= U64_MAX
      ensures r == Pass ==>
        version.Raw() == old(version).Raw() + |events| && state == Fold(applyTo, old(state), events)
      ensures r != Pass ==>
        && r == Fail(VersionOverflow)
        && version.Raw() == U64_MAX
        && state == Fold(applyTo, old(state), events[..U64_MAX - old(version).Raw() + 1])
    {
      ghost var start := version.Raw();
      var i := 0;
      while i < |events|
        invariant 0 <= i <= |events|
        invariant start + i <= U64_MAX
        invariant version.Raw() == start + i
        invariant state == Fold(applyTo, old(state), events[..i])
        invariant snapshotVersion == old(snapshotVersion)
      {
        r := Apply(events[i], applyTo);
        assert events[..i + 1][..i] == events[..i];
        if r != Pass {
          assert i == U64_MAX - start;
          return;
        }
        i := i + 1;
      }
      assert events[..i] == events;
      r := Pass;
    }

    /**
     * `apply_with_concurrency_check`: applies `event` only when the aggregate
     * is at `expected`; otherwise reports both versions and changes nothing.
     */
    method ApplyWithConcurrencyCheck<E>(event: E, expected: Version, applyTo: (E, A) -> A)
      returns (r: Outcome<AggregateError>)
      modifies this
      ensures old(version) != expected ==>
        r == Fail(VersionMismatch(expected, old(version))) && unchanged(this)
      ensures old(version) == expected ==>
        && state == applyTo(event, old(state))
        && snapshotVersion == old(snapshotVersion)
        && (r == Pass <==> old(version).Raw() < U64_MAX)
        && (r == Pass ==> old(version).Successor() == Some(version))
        && (r != Pass ==> r == Fail(VersionOverflow) && version == old(version))
    {
      if version != expected {
        return Fail(VersionMismatch(expected, version));
      }
      r := Apply(event, applyTo);
    }

    /** `set_snapshot_version`: records that a snapshot was taken at `v`. */
    method SetSnapshotVersion(v: Version)
      modifies this`snapshotVersion
      ensures snapshotVersion == Some(v)
      ensures version == old(version) && state == old(state)
    {
      snapshotVersion := Some(v);
    }

    /**
     * A write through `state_mut`: the state is changed directly, bypassing
     * event sourcing, and the versions stay as they were.
     */
    method StateMut(update: A -> A)
      modifies this`state
      ensures state == update(old(state))
      ensures version == old(version) && snapshotVersion == old(snapshotVersion)
    {
      state := update(state);
    }
  }

  /** An identified instance of a hydrated aggregate. */
  class Entity<I, A> {
    const id: I
    const aggregate: HydratedAggregate<A>

    /** `Entity::new`. */
    constructor (id: I, aggregate: HydratedAggregate<A>)
      ensures this.id == id && this.aggregate == aggregate
    {
      this.id := id;
      this.aggregate := aggregate;
    }

    /** `apply_event`: `HydratedAggregate::apply` on the entity's aggregate. */
    method ApplyEvent<E>(event: E, applyTo: (E, A) -> A) returns (r: Outcome<AggregateError>)
      modifies aggregate
      ensures aggregate.state == applyTo(event, old(aggregate.state))
      ensures aggregate.snapshotVersion == old(aggregate.snapshotVersion)
      ensures r == Pass <==> old(aggregate.version).Raw() < U64_MAX
      ensures r == Pass ==> old(aggregate.version).Successor() == Some(aggregate.version)
      ensures r != Pass ==> r == Fail(VersionOverflow) && aggregate.version == old(aggregate.version)
    {
      r := aggregate.Apply(event, applyTo);
    }
  }

  // ---------------------------------------------------------------------------
  // A counter aggregate: every event adds one
  // ---------------------------------------------------------------------------

  /** The one event of the counter aggregate. */
  datatype Increment = Increment

  /**
   * `Increment::apply_to`: `counter += 1` on the `u32` counter of the test
   * aggregate. At `u32::MAX` a debug build panics; this is the release
   * build's wrap-around to 0.
   */
  function CountUp(e: Increment, counter: U32): U32 {
    (counter + 1) % (U32_MAX + 1)
  }

  /**
   * Replaying `n` increments on a counter adds `n`, modulo 2^32; with no
   * wrap-around on the way (the only runs a debug build finishes) it adds
   * exactly `n`.
   */
  lemma {:induction false} FoldCountUp(counter: U32, events: seq<Increment>)
    ensures Fold(CountUp, counter, events) == (counter + |events|) % (U32_MAX + 1)
    ensures counter + |events| <= U32_MAX ==> Fold(CountUp, counter, events) == counter + |events|
  {
    if events != [] {
      FoldCountUp(counter, events[..|events| - 1]);
    }
  }

  /** A default counter aggregate after one increment is at event 1 with counter 1. */
  method EventApplicationScenario() returns (version: Version, counter: U32, r: Outcome<AggregateError>)
    ensures r == Pass && version == Number(MIN_VALUE) && counter == 1
  {
    var hydrated := new HydratedAggregate<U32>.Default(0);
    r := hydrated.Apply(Increment, CountUp);
    version, counter := hydrated.version, hydrated.state;
  }

  /**
   * Two appliers that both expect `Initial`: the first succeeds, the second
   * is told the aggregate is already at event 1 and changes nothing.
   */
  method ConcurrencyScenario() returns (first: Outcome<AggregateError>, second: Outcome<AggregateError>, counter: U32)
    ensures first == Pass
    ensures second == Fail(VersionMismatch(Initial, Number(MIN_VALUE)))
    ensures counter == 1
  {
    var hydrated := new HydratedAggregate<U32>.Default(0);
    first := hydrated.ApplyWithConcurrencyCheck(Increment, Initial, CountUp);
    second := hydrated.ApplyWithConcurrencyCheck(Increment, Initial, CountUp);
    counter := hydrated.state;
  }

  /** `Version::incr` at `u64::MAX` reports overflow and keeps the version. */
  method VersionOverflowScenario() returns (next: Version, r: Outcome<AggregateError>)
    ensures r == Fail(VersionOverflow) && next == Number(EventNumber(U64_MAX))
  {
    var version := Number(EventNumber(U64_MAX));
    next, r := version.Incr();
  }

  /**
   * Replaying a batch of increments on `HydratedAggregate::new` of a zero
   * counter numbers one version per event; the counter counts them exactly
   * up to `u32::MAX` and wraps beyond.
   */
  method ReplayScenario(events: seq<Increment>) returns (version: Version, counter: U32, r: Outcome<AggregateError>)
    requires |events| <= U64_MAX
    ensures r == Pass && version.Raw() == |events|
    ensures counter == |events| % (U32_MAX + 1)
    ensures |events| <= U32_MAX ==> counter == |events|
  {
    var hydrated := new HydratedAggregate<U32>.New(0);
    r := hydrated.ApplyEvents(events, CountUp);
    FoldCountUp(0, events);
    version, counter := hydrated.version, hydrated.state;
  }
}
