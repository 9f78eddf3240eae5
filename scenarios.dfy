/** Client code mirroring the repository's tests (store_test.go,
    session_test.go): what a caller can conclude about the store and its
    sessions from the contracts alone. Random ids are replaced by fixed,
    distinct strings, and sleeping by explicit instants. */
module StoreScenarios {
  import opened Wrappers
  import opened Sessions
  import opened Stores

  const Millisecond: Duration := 1_000_000
  const Minute: Duration := 60_000 * Millisecond

  /** A lookup of an unknown id fails; a lookup of a registered id returns
      the very session that was added, touched, with `accessed >= created`. */
  method GetScenario() returns (session: Session<int>, unknown: Result<Session<int>, StoreError>, known: Result<Session<int>, StoreError>)
    ensures unknown == Failure(NotFound("invalid-id"))
    ensures known.Success? && known.value == session && session.ID() == "abc"
    ensures session.Accessed() >= session.Created()
  {
    var store := new MemStore<int>.NewMemStore(Minute);
    session := new Session<int>.NewSession("abc", 0, Minute);
    unknown := store.Get("invalid-id", 5);
    store.Add(session);
    known := store.Get(session.ID(), 10);
  }

  /** Removing a session twice is harmless, and afterwards it is not found. */
  method RemoveScenario() returns (present: bool, lookup: Result<Session<int>, StoreError>)
    ensures !present
    ensures lookup == Failure(NotFound("abc"))
  {
    var store := new MemStore<int>.NewMemStore(Minute);
    var session := new Session<int>.NewSession("abc", 0, Minute);
    store.Add(session);
    store.Remove(session);
    store.Remove(session);
    present := "abc" in store.sessions;
    lookup := store.Get("abc", 1);
  }

  /** Ids standing in for the six random ones of the sweep test. */
  const SweepTestIds: seq<string> := ["s1", "s2", "s3", "s4", "s5", "s6"]

  /** The timeout the sweep test gives its session at index `i` (the
      `i + 1`-th it makes): 20ms for even-numbered ones, 900ms otherwise. */
  function SweepTestTimeout(i: int): (r: Duration)
  {
    if i % 2 == 1 then 20 * Millisecond else 900 * Millisecond
  }

  /** Six sessions made at instant 0, the even-numbered ones with a 20ms
      timeout and the odd-numbered ones with 900ms, added to a new store
      whose sweep ticks every 100ms. */
  method SixSessionStore() returns (store: MemStore<int>)
    ensures fresh(store) && store.Valid() && !store.closed
    ensures store.sessions.Keys == set i | 0 <= i < 6 :: SweepTestIds[i]
    ensures forall i :: 0 <= i < 6 ==>
      store.sessions[SweepTestIds[i]].accessed == 0 &&
      store.sessions[SweepTestIds[i]].timeout == SweepTestTimeout(i)
  {
    store := new MemStore<int>.NewMemStore(100 * Millisecond);
    for i := 0 to 6
      invariant store.Valid() && !store.closed
      invariant store.sessions.Keys == set j | 0 <= j < i :: SweepTestIds[j]
      invariant forall j :: 0 <= j < i ==>
        store.sessions[SweepTestIds[j]].accessed == 0 &&
        store.sessions[SweepTestIds[j]].timeout == SweepTestTimeout(j)
    {
      assert forall j :: 0 <= j < i ==> SweepTestIds[j] != SweepTestIds[i];
      var session := new Session<int>.NewSession(SweepTestIds[i], 0, SweepTestTimeout(i));
      store.Add(session);
    }
  }

  /** What two ticks, at 100ms and at 200ms, leave of the six sessions. */
  lemma SweepTestOutcome(m: map<string, Session<int>>)
    requires m.Keys == set i | 0 <= i < 6 :: SweepTestIds[i]
    requires forall i :: 0 <= i < 6 ==>
      m[SweepTestIds[i]].accessed == 0 && m[SweepTestIds[i]].timeout == SweepTestTimeout(i)
    ensures Unexpired(Unexpired(m, 100 * Millisecond), 200 * Millisecond).Keys == {"s1", "s3", "s5"}
  {
    var after := Unexpired(Unexpired(m, 100 * Millisecond), 200 * Millisecond);
    forall k | k in after
      ensures k in {"s1", "s3", "s5"}
    {
      var i :| 0 <= i < 6 && SweepTestIds[i] == k;
    }
    assert SweepTestIds[0] in after && SweepTestIds[2] in after && SweepTestIds[4] in after;
  }

  /** At 200ms, after two ticks, the three short-lived sessions are gone and
      the three long-lived ones remain. */
  method ClearTimeoutsScenario() returns (remaining: nat)
    ensures remaining == 3
  {
    var store := SixSessionStore();
    SweepTestOutcome(store.sessions);
    store.Tick(100 * Millisecond);
    store.Tick(200 * Millisecond);
    assert store.sessions.Keys == {"s1", "s3", "s5"};
    remaining := |store.sessions|;
  }

  /** The two phases of a tick are not atomic: a session listed as expired
      in phase one is deleted in phase two even if it was touched in between
      and is no longer expired. */
  method ReaccessBetweenPhasesScenario() returns (expiredAtDelete: bool, evicted: bool)
    ensures !expiredAtDelete && evicted
  {
    var store := new MemStore<int>.NewMemStore(100 * Millisecond);
    var session := new Session<int>.NewSession("s", 0, 20 * Millisecond);
    store.Add(session);
    var ids := store.CollectExpired(100 * Millisecond);
    var touched := store.Get("s", 110 * Millisecond);
    expiredAtDelete := session.Expired(110 * Millisecond);
    store.DeleteIds(ids);
    evicted := "s" !in store.sessions;
  }

  /** After Close the sweep no longer evicts, but lookups keep working. */
  method ClosedStoreScenario() returns (lookup: Result<Session<int>, StoreError>)
    ensures lookup.Success? && lookup.value.ID() == "s"
  {
    var store := new MemStore<int>.NewMemStore(100 * Millisecond);
    store.Close();
    var session := new Session<int>.NewSession("s", 0, 20 * Millisecond);
    store.Add(session);
    store.Tick(1000 * Millisecond);
    lookup := store.Get("s", 1100 * Millisecond);
  }

  /** A new session has no attributes (the Go test counts them through a
      field `attributes`, which the session type does not have: the map is
      the field `attribute`); a value set under a name is read
      back under that name, and other names stay absent. */
  method AttributesScenario() returns (initial: nat, name: Option<string>, missing: Option<string>)
    ensures initial == 0
    ensures name == Some("john")
    ensures missing == None
  {
    var session := new Session<string>.NewSession("abc", 0, 2 * Minute);
    initial := |session.attribute|;
    session.SetAttribute("name", "john");
    name := session.Attribute("name");
    missing := session.Attribute("missing");
  }
}
