/** The in-memory session registry (store.go): a map from id to session with
    lookup-and-touch, insert-or-overwrite, delete, and a periodic sweep that
    evicts sessions idle for longer than their own timeout. The background
    goroutine, its ticker and the read/write lock are not modelled: one tick
    of the sweep is the sequential method `Tick`, called with the tick's
    instant. */
module Stores {
  import opened Wrappers
  import opened Sessions

  /** The error `Get` returns for an id that is not registered. */
  datatype StoreError = NotFound(id: string)

  /** Every key is the id of the session stored under it. */
  ghost predicate KeyedById<V>(m: map<string, Session<V>>)
  {
    forall k :: k in m ==> m[k].id == k
  }

  /** The keys a sweep at `now` evicts. */
  ghost function ExpiredIds<V>(m: map<string, Session<V>>, now: Time): (r: set<string>)
    reads m.Values
  {
    set k | k in m && m[k].Expired(now)
  }

  /** The entries a sweep at `now` keeps, unchanged. */
  ghost function Unexpired<V>(m: map<string, Session<V>>, now: Time): (r: map<string, Session<V>>)
    reads m.Values
  {
    map k | k in m && !m[k].Expired(now) :: m[k]
  }

  /** A sweep splits the map: what it keeps and what it evicts are disjoint,
      together make up the whole map, and the number of sessions left is the
      number before less the number evicted. */
  lemma SweepPartitions<V>(m: map<string, Session<V>>, now: Time)
    ensures ExpiredIds(m, now) <= m.Keys
    ensures Unexpired(m, now).Keys == m.Keys - ExpiredIds(m, now)
    ensures |Unexpired(m, now)| == |m| - |ExpiredIds(m, now)|
  {
  }

  /** A sweep keeps the store's key invariant, and sweeping twice at the same
      instant evicts nothing more. */
  lemma SweepKeepsKeysAndIsIdempotent<V>(m: map<string, Session<V>>, now: Time)
    requires KeyedById(m)
    ensures KeyedById(Unexpired(m, now))
    ensures Unexpired(Unexpired(m, now), now) == Unexpired(m, now)
    ensures ExpiredIds(Unexpired(m, now), now) == {}
  {
  }

  /** A session kept by a sweep at a later instant is kept by a sweep at an
      earlier one: idleness only grows with time. */
  lemma LaterSweepEvictsMore<V>(m: map<string, Session<V>>, earlier: Time, later: Time)
    requires earlier <= later
    ensures ExpiredIds(m, earlier) <= ExpiredIds(m, later)
    ensures Unexpired(m, later).Keys <= Unexpired(m, earlier).Keys
  {
  }

  class MemStore<V> {
    var sessions: map<string, Session<V>>
    /** The sweep's stop signal has been sent (`endTicker` closed). */
    var closed: bool
    /** The sweep interval given to the ticker. */
    const interval: Duration

    ghost predicate Valid()
      reads this
    {
      KeyedById(sessions)
    }

    /** NewMemStore. `time.NewTicker` panics on a non-positive interval. */
    constructor NewMemStore(interval: Duration)
      requires interval > 0
      ensures Valid() && this.interval == interval
      ensures sessions == map[] && !closed
    {
      this.sessions := map[];
      this.closed := false;
      this.interval := interval;
    }

    /** Looks a session up and touches it; fails with NotFound for an
        unknown id. Only the session returned is modified. */
    method Get(id: string, now: Time) returns (r: Result<Session<V>, StoreError>)
      requires Valid()
      modifies if id in sessions then {sessions[id]} else {}
      ensures Valid() && sessions == old(sessions) && closed == old(closed)
      ensures r.Failure? <==> id !in sessions
      ensures r.Failure? ==> r.error == NotFound(id)
      ensures r.Success? ==> r.value == sessions[id] && r.value.ID() == id
      ensures r.Success? ==> r.value.Accessed() == now && r.value.attribute == old(r.value.attribute)
      ensures forall s :: s in sessions.Values && (r.Failure? || s != r.value) ==> unchanged(s)
    {
      if id !in sessions {
        return Failure(NotFound(id));
      }
      var session := sessions[id];
      session.Access(now);
      return Success(session);
    }

    /** Registers a session under its id, overwriting any entry with that id. */
    method Add(session: Session<V>)
      requires Valid()
      modifies this
      ensures Valid() && closed == old(closed)
      ensures sessions == old(sessions)[session.ID() := session]
    {
      sessions := sessions[session.ID() := session];
    }

    /** Deletes the entry under the session's id; a no-op if there is none.
        The entry removed is whatever is stored under that id, which need
        not be `session` itself. */
    method Remove(session: Session<V>)
      requires Valid()
      modifies this
      ensures Valid() && closed == old(closed)
      ensures sessions == old(sessions) - {session.ID()}
      ensures session.ID() !in old(sessions) ==> sessions == old(sessions)
    {
      sessions := sessions - {session.ID()};
    }

    /** Sends the stop signal to the sweep. Closing a closed channel panics
        in Go, so a store may be closed once only. The map stays usable. */
    method Close()
      requires Valid() && !closed
      modifies this
      ensures Valid()
      ensures closed && sessions == old(sessions)
    {
      closed := true;
    }

    /** Phase one of a sweep tick: the ids of all expired sessions, each
        once, in whatever order the map is visited. */
    method CollectExpired(now: Time) returns (ids: seq<string>)
      requires Valid()
      ensures (set id | id in ids) == ExpiredIds(sessions, now)
      ensures forall i, j :: 0 <= i < j < |ids| ==> ids[i] != ids[j]
    {
      ids := [];
      var unvisited := sessions.Keys;
      while unvisited != {}
        invariant unvisited <= sessions.Keys
        invariant forall id :: id in ids <==> id in sessions && id !in unvisited && sessions[id].Expired(now)
        invariant forall i, j :: 0 <= i < j < |ids| ==> ids[i] != ids[j]
        decreases unvisited
      {
        var key :| key in unvisited;
        var session := sessions[key];
        if now - session.Accessed() > session.Timeout() {
          ids := ids + [session.ID()];
        }
        unvisited := unvisited - {key};
      }
    }

    /** Phase two of a sweep tick: deletes exactly the listed ids, whatever
        the sessions under them look like now; an empty list leaves the map
        alone. */
    method DeleteIds(ids: seq<string>)
      requires Valid()
      modifies this
      ensures Valid() && closed == old(closed)
      ensures sessions == old(sessions) - (set id | id in ids)
      ensures ids == [] ==> sessions == old(sessions)
    {
      if |ids| > 0 {
        for i := 0 to |ids|
          invariant Valid() && closed == old(closed)
          invariant sessions == old(sessions) - (set id | id in ids[..i])
        {
          assert ids[..i + 1] == ids[..i] + [ids[i]];
          sessions := sessions - {ids[i]};
        }
        assert ids[..|ids|] == ids;
      }
    }

    /** One tick of the background sweep at instant `now`. Once the store is
        closed the sweep has stopped and a tick changes nothing; otherwise
        the tick evicts exactly the expired sessions and keeps every other
        entry as it was. */
    method Tick(now: Time)
      requires Valid()
      modifies this
      ensures Valid() && closed == old(closed)
      ensures old(closed) ==> sessions == old(sessions)
      ensures !old(closed) ==> sessions == Unexpired(old(sessions), now)
    {
      if closed {
        return;
      }
      var ids := CollectExpired(now);
      DeleteIds(ids);
      assert sessions == Unexpired(old(sessions), now);
    }
  }
}
