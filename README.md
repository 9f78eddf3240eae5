# gosesh session store, modelled in Dafny

This project models the core of `gosesh`, a Go session-management package:
the in-memory session registry `MemStore` (store.go) and the session record
`Session` (session.go) that it stores.

- `Sessions.Session<V>` is a class with the session's id, creation instant,
  last-access instant, idle timeout and attribute map. The id, creation
  instant and timeout are `const` fields, so no operation can change them
  after construction. `accessed` and `attribute` are mutable fields. `V`
  stands for Go's `interface{}` attribute values. `ID`, `Created`,
  `Accessed` and `Timeout` are plain field reads (session.go:59-83). The
  constructor and `Access` state their values.
- `Stores.MemStore<V>` is a class whose `sessions` field is a
  `map<string, Session<V>>`, plus a `closed` flag for the sweep's stop
  channel. Its invariant `Valid()` says that every key is the id of the
  session stored under it.
- One tick of the background sweep `clearTimeouts` is `MemStore.Tick(now)`.
  It runs the two loops of the source as two methods:
  - `CollectExpired(now)` visits the map in an unspecified order and returns
    the ids of the expired sessions.
  - `DeleteIds(ids)` deletes exactly those ids.
  `Tick` proves that the composition equals the filter `Unexpired` of the
  old map. A session is expired when `now - accessed > timeout` (strict).
- Time is an integer count of nanoseconds. The current instant is a
  parameter of the session constructor, `Access`, `Get` and `Tick`.
- `StoreScenarios` holds client code that mirrors the repository's tests
  (store_test.go, session_test.go). It uses fixed distinct ids in place of
  random ones and explicit instants in place of sleeping.

The Go `*Session` type never defines `Access` or `SetAttribute`, although
`SessionInterface` declares both (session.go:19, session.go:33). So
`*Session` does not satisfy `SessionInterface`. The non-test files still
compile, because the store calls `Access` through the interface
(store.go:54). But the test files do not compile (session_test.go:11,
session_test.go:26, store_test.go:24, store_test.go:25, store_test.go:40,
store_test.go:55, store_test.go:75),
and no `*Session` can be passed to `MemStore.Add`. The model gives the
session both declared methods, with the behaviour their doc comments
describe: `Access` sets `accessed` to the current instant, and
`SetAttribute` assigns into the attribute map. session_test.go:21 also
reads a field `attributes` that does not exist (the field is `attribute`,
session.go:39). The model reads `attribute`.

## Model

| member | source | states |
|---|---|---|
| `Sessions.Session.NewSession` | session.go:46-57 | A new session has the given id and timeout, and `created == accessed == now`. Its attribute map is empty, so every `Attribute` lookup answers `None`. |
| `Sessions.Session.Attribute` | session.go:65-68 | The result is `Some(v)` exactly when the name is a key with value `v`. Otherwise it is `None`, Go's `(nil, false)`. It reads the session and changes nothing. |
| `Sessions.Session.SetAttribute` | session.go:18-19 | Afterwards `Attribute(name) == Some(value)`. An earlier value under `name` is overwritten. Every other name answers as before, and `accessed` is unchanged. |
| `Sessions.Session.Access` | session.go:31-33 | `Accessed()` becomes `now`. The attribute map is unchanged, and the const fields cannot change. |
| `Sessions.AccessedAfterIsLastReading` | session.go:31-33 | `AccessedAfter` is the value of `accessed` after a series of accesses. For any readings, it is the last reading, or the starting value when there are none. |
| `Sessions.AccessedNeverDecreases` | session.go:31-33 | If the clock readings never go backwards, `accessed` after a series of accesses is never below the starting value. |
| `Sessions.AccessAll` | session.go:31-33 | Calling `Access` on a session at each reading in turn leaves `Accessed()` equal to `AccessedAfter` of the readings, for any readings. If the readings never go backwards, `accessed` has not decreased. The attributes are kept. |
| `Sessions.AccessedNotBeforeCreated` | session.go:46-54 | Create a session at `now`, then access it at readings that never go backwards and start no earlier than `now`. Afterwards `Accessed() >= Created() == now`, and the id and timeout are as given. |
| `Stores.MemStore.NewMemStore` | store.go:32-42 | A new store is empty, not closed, and satisfies the key invariant. It requires a positive interval, because `time.NewTicker` panics otherwise. |
| `Stores.MemStore.Get` | store.go:45-56 | On an absent id the result is `Failure(NotFound(id))` and nothing changes. On a present id the result is exactly the stored session, whose `accessed` becomes `now` and whose attributes are kept. In both cases the map and every other session are unchanged. |
| `Stores.MemStore.Add` | store.go:59-64 | The new map is the old one with `session.ID()` mapped to `session`. Any earlier entry under that id is overwritten, and every other entry is kept. The key invariant is preserved. |
| `Stores.MemStore.Remove` | store.go:67-72 | The new map is the old one without `session.ID()`. Removing an absent id leaves the map as it was, so a second `Remove` is a no-op. The key invariant is preserved. |
| `Stores.MemStore.Close` | store.go:75-77 | Requires that the store is not closed yet, because closing a closed channel panics. It sets `closed`, leaves the map as it was, and preserves the key invariant. |
| `Stores.MemStore.CollectExpired` | store.go:88-97 | Phase one of a sweep. The returned ids are exactly the keys whose session satisfies `now - accessed > timeout`. Each id appears once. It relies on the key invariant, because the loop appends `session.ID()` and not the key. |
| `Stores.MemStore.DeleteIds` | store.go:99-105 | Phase two of a sweep. The new map is the old one minus exactly the listed ids, whatever state those sessions are in now. An empty list leaves the map untouched. |
| `Stores.MemStore.Tick` | store.go:80-107 | After `Close`, a tick changes nothing. Otherwise it leaves exactly the unexpired entries (`now - accessed <= timeout`), unchanged, and never adds or modifies an entry. The key invariant is preserved. |
| `Stores.SweepPartitions` | store.go:87-105 | The kept keys and the evicted keys split the map. The sweep removes exactly `|ExpiredIds|` entries. |
| `Stores.SweepKeepsKeysAndIsIdempotent` | store.go:88-104 | A sweep preserves the key invariant. A second sweep at the same instant evicts nothing. |
| `Stores.LaterSweepEvictsMore` | store.go:93 | A session evicted at an instant is evicted at every later instant, and a sweep at a later instant keeps no more keys. |
| `StoreScenarios.GetScenario` | store_test.go:30-48 | `Get("invalid-id")` fails with NotFound. After `Add`, `Get` of the id returns the very session object that was added, with `accessed >= created`. |
| `StoreScenarios.RemoveScenario` | store_test.go:50-61 | After `Remove`, the id is not a key and `Get` fails with NotFound. The test calls `Remove` once and inserts by writing the map directly. The scenario adds through `Add` and calls `Remove` a second time, which shows that removal is idempotent. |
| `StoreScenarios.SixSessionStore` | store_test.go:63-76 | Six sessions are created at instant 0 and added. Even-numbered ones have a 20ms timeout, odd-numbered ones 900ms. All six are registered. |
| `StoreScenarios.SweepTestOutcome` | store_test.go:76-82 | Ticks at 100ms and 200ms leave exactly the three 900ms sessions. |
| `StoreScenarios.ClearTimeoutsScenario` | store_test.go:63-82 | With a 100ms sweep interval, three sessions remain at 200ms. |
| `StoreScenarios.ReaccessBetweenPhasesScenario` | store.go:88-104 | Suppose a session is listed in phase one and touched before phase two. Phase two still deletes it, although it is no longer expired. This is the documented imprecision of the two-phase sweep. |
| `StoreScenarios.ClosedStoreScenario` | store.go:84-86 | After `Close`, a tick long past a session's timeout does not evict it. `Add` and `Get` keep working. |
| `StoreScenarios.AttributesScenario` | session_test.go:18-35 | A new session has no attributes. After `SetAttribute("name", "john")`, `Attribute("name")` is `Some("john")` and an unset name is `None`. |

## Left out

- The goroutine, the `time.Ticker` and its schedule, the `select` on `endTicker`, and the `sync.RWMutex` (store.go:26-28, store.go:39, store.go:80-87) are not modelled. The sweep is the sequential method `Tick`, called with the tick's instant. Ticks are not tied to multiples of `interval`.
- Concurrency, including the data race in `Get`, is not modelled. `Get` writes `accessed` while holding only the read lock (store.go:46-54), and sequential code has no counterpart.
- Wall-clock time (`time.Now()`, the ticker's `now`) is not modelled. Instants are integer parameters.
- Stores.MemStore.Tick: models `Close` as taking effect before the next tick, so every tick after `Close` changes nothing. In Go, `Close` only closes `endTicker` (store.go:75-77), and the `select` (store.go:83-87) picks at random among the ready cases. So a tick already waiting in `ticker.C` may still run one full sweep after `Close` returns, and a sweep already under way finishes.
- Stores.MemStore.Tick: does not model the saturation of Go's `time.Time.Sub` at the bounds of a 64-bit nanosecond duration. With unbounded integers the subtraction is exact, which agrees with Go whenever the difference fits in about 292 years.
- `genID` (session.go:86-90) is a wrapper over `crypto/rand` and base64 URL encoding (section 5 of RFC 4648) that ignores the read error. It is not modelled: `NewSession` takes the id as a parameter instead of a byte length.
- Sessions.Session.NewSession: takes the creation instant as a parameter in place of `time.Now()`.
- `StoreInterface` and `SessionInterface` are not modelled, because they add no behaviour beyond the concrete types.
- cookie_manager.go is not part of this model. It is HTTP glue that reads and writes cookies and delegates to the store.
- Sharing one session object between two stores is not excluded, as in Go. Within one store, the key invariant already rules out one object under two keys.
