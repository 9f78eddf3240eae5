/** The session record: an id, creation and last-access instants, an idle
    timeout and a bag of named attributes (session.go). */
module Sessions {
  import opened Wrappers

  /** An instant, in nanoseconds on the caller's clock. */
  type Time = int

  /** A span of time, in nanoseconds. */
  type Duration = int

  /** A server-side session. `V` stands for Go's `interface{}` attribute
      values: the session stores them and hands them back, nothing more.
      The id, the creation instant and the timeout are `const`: no operation
      can write them after construction. */
  class Session<V> {
    const id: string
    const created: Time
    var accessed: Time
    const timeout: Duration
    var attribute: map<string, V>

    /** NewSession, with the freshly generated id and the current instant
        supplied by the caller. */
    constructor NewSession(id: string, now: Time, timeout: Duration)
      ensures ID() == id && Timeout() == timeout
      ensures Created() == now && Accessed() == Created()
      ensures forall name :: Attribute(name) == None
      ensures attribute == map[]
    {
      this.id := id;
      this.created := now;
      this.accessed := now;
      this.timeout := timeout;
      this.attribute := map[];
    }

    function ID(): (r: string) { id }

    function Created(): (r: Time) { created }

    function Accessed(): (r: Time) reads this { accessed }

    function Timeout(): (r: Duration) { timeout }

    /** Go's `(value, exists)` pair: `Some(v)` is `(v, true)`, `None` is
        `(nil, false)`. */
    function Attribute(name: string): (r: Option<V>)
      reads this
      ensures r.Some? <==> name in attribute
      ensures r.Some? ==> r.value == attribute[name]
    {
      if name in attribute then Some(attribute[name]) else None
    }

    /** Declared by the session interface but never defined on the concrete
        session type in the Go code; modelled from its doc comment ("sets
        the value of an attribute"), as the map assignment it describes. */
    method SetAttribute(name: string, value: V)
      modifies this
      ensures attribute == old(attribute)[name := value]
      ensures Attribute(name) == Some(value)
      ensures forall other :: other != name ==> Attribute(other) == old(Attribute(other))
      ensures accessed == old(accessed)
    {
      attribute := attribute[name := value];
    }

    /** Declared by the session interface but never defined on the concrete
        session type in the Go code; modelled from its doc comment ("updating
        its last accessed time to the current time"). */
    method Access(now: Time)
      modifies this
      ensures Accessed() == now
      ensures attribute == old(attribute)
    {
      accessed := now;
    }

    /** The sweep's eviction test: idle for strictly longer than the timeout. */
    predicate Expired(now: Time)
      reads this
    {
      now - accessed > timeout
    }
  }

  /** The clock readings are never going backwards. */
  predicate NonDecreasing(clock: seq<Time>)
  {
    forall i, j :: 0 <= i < j < |clock| ==> clock[i] <= clock[j]
  }

  /** The `accessed` field of a session whose `accessed` was `start` after it
      has been accessed at `clock[0]`, `clock[1]`, ... in turn. */
  function AccessedAfter(start: Time, clock: seq<Time>): (r: Time)
    decreases clock
  {
    if clock == [] then start else AccessedAfter(clock[0], clock[1..])
  }

  /** Whatever the readings, after at least one access `accessed` holds the
      last reading: each access overwrites it. */
  lemma {:induction false} AccessedAfterIsLastReading(start: Time, clock: seq<Time>)
    ensures clock == [] ==> AccessedAfter(start, clock) == start
    ensures clock != [] ==> AccessedAfter(start, clock) == clock[|clock| - 1]
    decreases clock
  {
    if clock != [] {
      AccessedAfterIsLastReading(clock[0], clock[1..]);
    }
  }

  /** With a clock that never goes backwards, `accessed` never decreases; in
      particular, since a new session starts with `accessed == created`,
      `accessed >= created` holds for its whole life. */
  lemma AccessedNeverDecreases(start: Time, clock: seq<Time>)
    requires NonDecreasing([start] + clock)
    ensures AccessedAfter(start, clock) >= start
  {
    AccessedAfterIsLastReading(start, clock);
    if clock != [] {
      assert ([start] + clock)[0] <= ([start] + clock)[|clock|];
    }
  }

  /** Accesses `session` at each reading of `clock` in turn, as successive
      successful lookups do. The session's `accessed` ends at
      `AccessedAfter` of the readings; with a clock that never goes
      backwards, it has not decreased. */
  method AccessAll<V>(session: Session<V>, clock: seq<Time>)
    modifies session
    ensures session.Accessed() == AccessedAfter(old(session.Accessed()), clock)
    ensures NonDecreasing([old(session.Accessed())] + clock) ==>
      session.Accessed() >= old(session.Accessed())
    ensures session.attribute == old(session.attribute)
  {
    ghost var start := session.Accessed();
    AccessedAfterIsLastReading(start, clock);
    if NonDecreasing([start] + clock) {
      AccessedNeverDecreases(start, clock);
    }
    for i := 0 to |clock|
      invariant i == 0 ==> session.Accessed() == start
      invariant i > 0 ==> session.Accessed() == clock[i - 1]
      invariant session.attribute == old(session.attribute)
    {
      session.Access(clock[i]);
    }
  }

  /** A session created at `now` and then accessed at readings that never go
      backwards and are no earlier than `now` is never accessed before it
      was created. */
  method AccessedNotBeforeCreated<V>(id: string, now: Time, timeout: Duration, clock: seq<Time>)
    returns (session: Session<V>)
    requires NonDecreasing([now] + clock)
    ensures session.Accessed() >= session.Created() == now
    ensures session.ID() == id && session.Timeout() == timeout
  {
    session := new Session<V>.NewSession(id, now, timeout);
    AccessAll(session, clock);
  }
}
