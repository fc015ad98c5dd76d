# OrbitDB event log and offline mode, modelled in Dafny

This project models two behaviours of OrbitDB, a peer-to-peer database built
on an append-only, content-addressed operation log.

1. **The event-log store.** `db.add(value)` appends one entry and returns its
   hash. `db.iterator({limit, gt, gte, lt, lte})` reads the log back, with
   `next()` and `collect()` on the iterator.
2. **The offline-mode check of `OrbitDB.createInstance`.** It rejects
   `offline: true` without an `id`. It creates the publish/subscribe
   transport only when the instance is online.

The implementation under `src/` is not part of this model. The behaviour
modelled is the behaviour the two test suites assert, and every row below
cites the test lines it comes from.

Files:

- `wrappers.dfy`: `Option` and `Result`.
- `eventlog.dfy` (module `EventLog`): the entries and `Add`. A single writer
  keeps the log as a linear chain, stored as `seq<Entry>` oldest first. An
  entry's hash is the constructor `Cid(time, payload, next)` applied to its
  content. That makes content addressing injective by construction. `Valid`
  is the log invariant: entry `i` is exactly what `add` would have built at
  position `i`. Pairwise-distinct hashes follow from it.
- `query.dfy` (module `LogQuery`): the iterator options and `Query`.
  - `Query` is the reference definition of `collect()`, written as index
    slicing. The range bounds cut a window, and the limit keeps the newest
    entries of that window, presented oldest first.
  - `Traverse` is the walk an implementation does. It starts at the upper
    bound or the head, steps towards the root, and stops at the lower bound
    or when the limit runs out. It is proved equal to `Query`.
  - `Cursor`, `Step`, `Yields` and `Drain` model `next()` and `for ... of`.
- `query_facts.dfy` (module `QueryFacts`): the behaviour the test suites assert, stated as
  lemmas about `Query`, `Add` and `AddAll`.
- `offline.dfy` (module `OfflineMode`): `CreateInstance` as a total function
  returning `Result<Instance, string>`.

Modelling choices:

- **Order of results.** The tests show that `collect()` and `next()` yield
  oldest first (test/eventlog.test.js:85, :196-206), and so does the model.
- **Bounds as a type.** `gt`/`gte` and `lt`/`lte` are each one `Bound` value:
  `Unbounded`, `Exclusive(h)` or `Inclusive(h)`. So "at most one of each
  pair" holds by construction. When both a lower and an upper bound are
  given, the window is their intersection. The tests never combine them.
- **Missing bound hash.** A bound naming a hash that is not in the log
  yields an empty result. No test asserts this. It is the model's total
  choice: no row of the table below claims it, and `EmptyWindow` uses it
  only as a step of `Traverse`'s proof.
- **Positive limit with `gt`/`gte`.** A positive limit with a lower bound
  keeps the newest entries of the range. The tests only use limits that cover
  the whole range (test/eventlog.test.js:284-298), so they do not pin this
  down. The model keeps the newest entries of the range, as it does with no
  bound.
- **Node identity.** `CreateInstance` takes the IPFS node's identity
  `nodeId` as a parameter. It stands in for the call to the node that
  supplies an identity when the options carry none.

## Model

| member | source | states |
|---|---|---|
| EventLog.Add | test/eventlog.test.js:56-64 | `add` grows the log by exactly one entry and leaves the earlier entries unchanged. The new entry is the newest, its hash is the one returned, and its payload is `{op: 'ADD', key: null, value}`. If the log was valid it stays valid, and the new hash differs from every earlier hash. |
| EventLog.ValidHashesDistinct | test/eventlog.test.js:66-78 | In a valid log, entry `i` has clock time `i`, and its hash records that time. So no two entries share a hash. |
| EventLog.AddAll | test/eventlog.test.js:80-88 | A series of `add` calls extends the log by one entry per value, in call order. The k-th new entry carries the k-th value, and the k-th returned hash names it. Validity is preserved. |
| LogQuery.IndexOf | test/eventlog.test.js:253-262 | Looking up a bound's hash returns the first position holding that hash. It returns `None` only when no entry has it. |
| LogQuery.IndexOfOwnHash | test/eventlog.test.js:239-262 | In a valid log, looking up the hash of entry `i` finds `i`. So a bound names exactly one position. |
| LogQuery.LowerIndex | test/eventlog.test.js:236-298 | With no lower bound the window starts at the root. `gte: h` starts it at `h`'s entry and `gt: h` just after it. The position is absent exactly when looking up `h` with `IndexOf` finds no entry. |
| LogQuery.UpperIndex | test/eventlog.test.js:301-364 | With no upper bound the window runs to the head. `lt: h` ends it just before `h`'s entry and `lte: h` with it. The position is absent exactly when looking up `h` with `IndexOf` finds no entry. |
| LogQuery.Window | test/eventlog.test.js:236-364 | Whatever the bounds, the entries a range admits are a contiguous run of the log, oldest first. |
| LogQuery.WindowOfEntry | test/eventlog.test.js:236-364 | In a valid log, bounding at entry `i` gives: `gte` the entries from `i` on, `gt` those after `i`, `lt` those before `i`, and `lte` those up to and including `i`. |
| LogQuery.FindLower | test/eventlog.test.js:236-298 | Resolving a lower bound by scanning the log gives the same start position as `LowerIndex`. |
| LogQuery.FindUpper | test/eventlog.test.js:301-364 | Resolving an upper bound by scanning the log gives the same end position as `UpperIndex`. |
| LogQuery.KeepCount | test/eventlog.test.js:140-234 | The limit keeps at most the whole window, and keeps at least one entry of any non-empty window. |
| LogQuery.Query | test/eventlog.test.js:49-54 | `collect()` always returns a contiguous run of the log and never more entries than the log holds. A fresh, empty log yields nothing. |
| LogQuery.FindIndex | test/eventlog.test.js:237-238 | The oldest-first scan for a bound's hash finds the same position as `IndexOf`. |
| LogQuery.Traverse | test/eventlog.test.js:149-157 | Walking from the upper bound or the head towards the root gives exactly `Query`'s result. The walk stops at the lower bound or when the limit is used up, and collects entries oldest first. |
| LogQuery.Open | test/eventlog.test.js:114-119 | The first `next()` of a new iterator has a value exactly when `collect()` with the same options is non-empty. Iterating it to the end yields what `collect()` returns. |
| LogQuery.Step | test/eventlog.test.js:140-147 | `next()` yields `null` exactly when nothing is pending. Otherwise the yielded entry followed by the rest is what was pending. |
| LogQuery.Yields | test/eventlog.test.js:196-206 | `n` successive `next()` calls yield the pending entries in order, then `null` for every call past the end. |
| LogQuery.Drain | test/eventlog.test.js:130-138 | Iterating with `for ... of` yields exactly the pending entries, in order. |
| QueryFacts.NegativeLimitYieldsAll | test/eventlog.test.js:208-225 | Any negative limit, `-1` or `-300`, returns the whole log in append order. The root comes first and the newest entry last. |
| QueryFacts.DefaultLimitYieldsNewest | test/eventlog.test.js:180-194 | An absent limit, `limit: 0` and `limit: 1` each return exactly the newest entry. The second `next()` is then `null`. |
| QueryFacts.PositiveLimitYieldsNewest | test/eventlog.test.js:227-234 | A positive limit `n` up to the log size returns the `n` newest entries, oldest first. A limit at least the log size returns the whole log. |
| QueryFacts.NextYieldsOldestFirst | test/eventlog.test.js:196-206 | With `limit: 3`, `next()` yields the third-newest, second-newest and newest entries in that order, then `null`. |
| QueryFacts.PositiveLimitCapsRange | test/eventlog.test.js:196-206 | For any bounds, a positive limit `n` keeps the `n` newest entries of the unlimited result, or all of them when there are fewer, oldest first. |
| QueryFacts.NegativeLimitsAgree | test/eventlog.test.js:218-225 | For any bounds, every negative limit gives the same result as `limit: -1`. |
| QueryFacts.DefaultLimitsAgree | test/eventlog.test.js:180-194 | For any bounds, an absent limit and `limit: 0` each give the same result as `limit: 1`. |
| QueryFacts.InclusiveLowerCutsFrom | test/eventlog.test.js:253-262 | With no limit, `gte: h` returns `h`'s entry and every later entry, in order. |
| QueryFacts.ExclusiveLowerCutsAfter | test/eventlog.test.js:274-282 | With no limit, `gt: h` returns every entry strictly after `h`'s entry, in order. |
| QueryFacts.ExclusiveUpperCutsBefore | test/eventlog.test.js:311-319 | With no limit, `lt: h` returns every entry strictly before `h`'s entry, root first. |
| QueryFacts.InclusiveUpperCutsThrough | test/eventlog.test.js:345-353 | With no limit, `lte: h` returns every entry up to and including `h`'s entry, root first. |
| QueryFacts.GteHeadIsHead | test/eventlog.test.js:239-246 | `gte: head` with `limit: -1` returns the head alone. |
| QueryFacts.GtHeadIsEmpty | test/eventlog.test.js:248-251 | `gt: head` with the default limit returns nothing. |
| QueryFacts.GteRootIsAll | test/eventlog.test.js:264-272 | `gte: root` with `limit: -1` returns every entry, root first and head last. |
| QueryFacts.GtRootSkipsRoot | test/eventlog.test.js:274-282 | `gt: root` with `limit: -1` returns every entry but the root, in order. |
| QueryFacts.ExclusiveLowerWithCoveringLimit | test/eventlog.test.js:284-298 | `gt: h` with a positive limit covering the rest of the log returns every entry after `h`, in order. |
| QueryFacts.LtHeadIsPrevious | test/eventlog.test.js:302-309 | `lt: head` with the default limit returns the single entry just before the head. |
| QueryFacts.LtHeadIsAllButHead | test/eventlog.test.js:311-319 | `lt: head` with `limit: -1` returns every entry before the head, root first. |
| QueryFacts.LtHeadLimitThree | test/eventlog.test.js:321-329 | `lt: head` with `limit: 3` returns the three entries just before the head, oldest first. |
| QueryFacts.LtRootIsEmpty | test/eventlog.test.js:331-334 | `lt: root` with the default limit returns nothing. |
| QueryFacts.LteRootIsRoot | test/eventlog.test.js:336-343 | `lte: root` with the default limit returns the root alone. |
| QueryFacts.LteHeadIsAll | test/eventlog.test.js:345-353 | `lte: head` with `limit: -1` returns every entry, root first and head last. |
| QueryFacts.LteHeadLimitThree | test/eventlog.test.js:355-364 | `lte: head` with `limit: 3` returns the three newest entries, oldest first. |
| QueryFacts.AddShowsUpNewest | test/eventlog.test.js:66-78 | After `add`, a full read has one more entry, keeps the earlier entries unchanged and ends with the returned hash and the added value. The new hash differs from the newest hash read before the `add`. |
| QueryFacts.AddsReadBackInOrder | test/eventlog.test.js:80-88 | Adding values one after another and reading with `limit: -1` returns their values in append order. |
| QueryFacts.AddedHashesAreReadHashes | test/eventlog.test.js:107-111 | The hashes a series of `add` calls returns are the hashes a full read yields, in order, and no two entries of that read share a hash. |
| OfflineMode.CreateInstance | test/offline-mode.js:56-83 | Creation fails if and only if offline mode is requested without an `id`, and the error is exactly the fixed message. Offline mode defaults to off. A created instance has a transport if and only if it is online. Its identity is the given `id`, or the node's own identity if none is given. |
| OfflineMode.OfflineWithIdHasNoPubSub | test/offline-mode.js:56-60 | `{id, offline: true}` creates an instance with no transport. |
| OfflineMode.OnlineHasPubSub | test/offline-mode.js:62-72 | `{offline: false}` and options without `offline` both create an instance with a transport, and the two produce the same instance. |
| OfflineMode.OfflineWithoutIdFails | test/offline-mode.js:74-83 | `{offline: true}` without an `id` fails with the message 'Offline mode requires passing an `id` in the options', and no instance is created. |

## Left out

- The hash string format is not modelled: the `zd` prefix and the length of 49 (test/eventlog.test.js:90-99, :125). It comes from the multihash and base58 encoding that IPFS computes. Here the hash is an opaque, injective content identifier.
- Starting and stopping the IPFS daemon, filesystem cleanup, `db.load()` and `db.drop()` persistence, and the test-runner plumbing are left out. They are input/output and test scaffolding.
- `db.type` and `db.dbname` are left out (test/eventlog.test.js:41-47). They are store metadata with no behaviour.
- Signing, identities and the keystore are left out. They are external libraries whose code is not part of this model.
- Replication over publish/subscribe, the multi-writer merge (`join`), clock tie-breaking and truncation are left out. No test in the modelled suites exercises them.
- The publish/subscribe transport is a token `PubSub` value. Opening and closing it is input/output.
