# Session ad-block whitelist, modelled in Dafny

This project models the in-memory ad-block whitelist of Lightning Browser
(`SessionWhitelistModel`). The class keeps a set of domains that every
`isUrlWhitelisted` query reads. `addUrlToWhitelist` and `removeUrlFromWhitelist`
change that set at once. Each also schedules one durable step on the database
scheduler:

- an add looks up the domain and inserts a `WhitelistItem(domain, now)` only
  when the lookup comes back empty;
- a remove looks up the domain and deletes the entry found, if any.

At construction a one-shot load is scheduled. When it completes, it replaces
the whole set with the `url` fields of all stored items. It does not merge.

The model turns the asynchrony into explicit, sequential state:

- `pending` is a queue of deferred durable steps.
- `loadPending` says whether the initial load has yet to complete.
- `RunPending(i)` runs one deferred step, chosen by the caller.
- `CompleteLoad()` completes the load.

So any interleaving the scheduler could choose becomes an ordinary sequence of
method calls. A few pieces are parameters:

- Domain extraction (`domainForUrl`) is a function value fixed at construction.
- The clock is the `now` argument of `AddUrlToWhitelist`.
- The repository is a sequence of entries. Its lookup, insert and delete are
  pure functions on that sequence.

Files:

- `repository.dfy` (module `Repository`): the entry type and the repository
  operations.
- `durable_steps.dfy` (module `DurableSteps`): the two deferred steps, running
  a queue of them, duplicate suppression, and the `Settled` relation between
  the store and the in-memory set.
- `session_whitelist_model.dfy` (module `SessionWhitelist`): the class.
- `scenarios.dfy` (module `Scenarios`): concrete call sequences. These include
  the add-then-remove race and the same calls run in scheduled order.

Besides what the source promises, the model proves one convergence result.
Suppose the deferred steps run oldest first, as a single-writer database queue
would run them. Then `Converges()` is preserved by every add, every remove and
every oldest-first step. It says that, once the queue drains, the store holds
exactly one entry for each domain of the in-memory set and none for any other
domain. Running a later step first can break it: `AddThenRemoveRaceAfterLoad`
shows a loaded session where it fails.

The code schedules each durable step before it changes the set. A scheduled
step does not run until `RunPending`, so the two orders have the same effect,
and the model changes the set as part of the call.

## Model

| member | source | states |
|---|---|---|
| `Repository.ItemForUrl` | app/src/main/java/acr/browser/lightning/adblock/whitelist/SessionWhitelistModel.kt:37-39 | the lookup by domain finds an entry exactly when the store holds one for that domain, and what it finds is a stored entry for that domain |
| `Repository.AddItem` | app/src/main/java/acr/browser/lightning/adblock/whitelist/SessionWhitelistModel.kt:42 | inserting adds that one item to the stored entries; the domain projection gains its domain and only that domain's count rises, by one |
| `Repository.RemoveItem` | app/src/main/java/acr/browser/lightning/adblock/whitelist/SessionWhitelistModel.kt:58 | deleting a stored item removes one copy of it and keeps every other entry; deleting an item that is not stored changes nothing |
| `Repository.CountForRemoveItem` | app/src/main/java/acr/browser/lightning/adblock/whitelist/SessionWhitelistModel.kt:58 | a delete lowers the entry count of the deleted item's domain by one and leaves every other domain's count alone |
| `Repository.CountForPositive` | app/src/main/java/acr/browser/lightning/adblock/whitelist/SessionWhitelistModel.kt:27 | a domain is in the projection of the stored `url` fields exactly when some entry has it |
| `DurableSteps.InsertIfAbsent` | app/src/main/java/acr/browser/lightning/adblock/whitelist/SessionWhitelistModel.kt:37-46 | the durable add inserts the item exactly when the store has no entry for its domain, and otherwise leaves the store unchanged; afterwards the domain has at least one entry, at most one more than before, and no other domain's count changes |
| `DurableSteps.DeleteFound` | app/src/main/java/acr/browser/lightning/adblock/whitelist/SessionWhitelistModel.kt:56-58 | the durable remove deletes one entry for the domain when there is one and is a no-op otherwise; no other domain's entries change; with at most one entry the domain leaves the projection |
| `DurableSteps.Step` | app/src/main/java/acr/browser/lightning/adblock/whitelist/SessionWhitelistModel.kt:36-58 | a deferred step keeps every entry of every other domain, with its multiplicity, and never gives any domain a second entry |
| `DurableSteps.RunAll` | app/src/main/java/acr/browser/lightning/adblock/whitelist/SessionWhitelistModel.kt:37-60 | running any sequence of deferred steps keeps a store with at most one entry per domain that way |
| `DurableSteps.RunAllFirst` | app/src/main/java/acr/browser/lightning/adblock/whitelist/SessionWhitelistModel.kt:37-60 | running the oldest step on its own and then the remaining queue gives the same store as running the whole queue |
| `DurableSteps.RepeatedAddsLeaveOneEntry` | app/src/main/java/acr/browser/lightning/adblock/whitelist/SessionWhitelistModel.kt:36-46 | any number of adds for one domain, run one after another on a store with at most one entry for it, leave exactly one entry for that domain |
| `DurableSteps.AddKeepsSettled` | app/src/main/java/acr/browser/lightning/adblock/whitelist/SessionWhitelistModel.kt:34-51 | if the store would match the set once the queue drains, it still does after adding the domain to the set and appending its durable add |
| `DurableSteps.RemoveKeepsSettled` | app/src/main/java/acr/browser/lightning/adblock/whitelist/SessionWhitelistModel.kt:54-63 | if the store would match the set once the queue drains, it still does after removing the domain from the set and appending its durable delete |
| `DurableSteps.RunFirstKeepsSettled` | app/src/main/java/acr/browser/lightning/adblock/whitelist/SessionWhitelistModel.kt:37-60 | running the oldest pending step keeps the store matching the set once the rest of the queue drains |
| `SessionWhitelist.SessionWhitelistModel.constructor` | app/src/main/java/acr/browser/lightning/adblock/whitelist/SessionWhitelistModel.kt:17-30 | a new session starts with an empty set and nothing of its own scheduled, and its initial load is pending |
| `SessionWhitelist.SessionWhitelistModel.CompleteLoad` | app/src/main/java/acr/browser/lightning/adblock/whitelist/SessionWhitelistModel.kt:24-29 | completing the load replaces the set with exactly the domains of all stored items, whatever the set held before; the store and the queue are untouched |
| `SessionWhitelist.SessionWhitelistModel.IsUrlWhitelisted` | app/src/main/java/acr/browser/lightning/adblock/whitelist/SessionWhitelistModel.kt:32 | a URL is whitelisted exactly when its domain can be extracted and is in the in-memory set; an unparseable URL never is |
| `SessionWhitelist.SessionWhitelistModel.AddUrlToWhitelist` | app/src/main/java/acr/browser/lightning/adblock/whitelist/SessionWhitelistModel.kt:34-52 | the set becomes old set plus the domain, and every URL with that domain is whitelisted at once; one durable add with the call's time is scheduled; the store is not touched; an unparseable URL changes nothing; convergence is kept |
| `SessionWhitelist.SessionWhitelistModel.RemoveUrlFromWhitelist` | app/src/main/java/acr/browser/lightning/adblock/whitelist/SessionWhitelistModel.kt:54-64 | the set becomes old set minus the domain, and no URL with that domain is whitelisted; one durable delete is scheduled; the store is not touched; an unparseable URL changes nothing; convergence is kept |
| `SessionWhitelist.SessionWhitelistModel.RunPending` | app/src/main/java/acr/browser/lightning/adblock/whitelist/SessionWhitelistModel.kt:37-60 | the scheduler runs one chosen pending step against the store, drops it from the queue and leaves the in-memory set alone; running the oldest step keeps convergence |
| `Scenarios.ColdStart` | app/src/main/java/acr/browser/lightning/adblock/whitelist/SessionWhitelistModel.kt:22-32 | a new session, before any add and before its load completes, whitelists no URL |
| `Scenarios.AddIsVisibleBeforePersisting` | app/src/main/java/acr/browser/lightning/adblock/whitelist/SessionWhitelistModel.kt:34-51 | right after an add, any URL with the same domain is whitelisted while the store is still unchanged |
| `Scenarios.UnparseableUrlIsIgnored` | app/src/main/java/acr/browser/lightning/adblock/whitelist/SessionWhitelistModel.kt:32-63 | add and remove of a URL without a domain leave the store as it was and schedule nothing, and the URL is not whitelisted |
| `Scenarios.AddThenRemove` | app/src/main/java/acr/browser/lightning/adblock/whitelist/SessionWhitelistModel.kt:34-63 | add(u) followed by remove(u) leaves u not whitelisted |
| `Scenarios.AddTwiceStoresOnce` | app/src/main/java/acr/browser/lightning/adblock/whitelist/SessionWhitelistModel.kt:36-50 | two adds of URLs with one domain, their durable steps run in order on an empty store, leave exactly the first add's entry stored, and the set holding just that domain |
| `Scenarios.LoadDiscardsEarlyAdd` | app/src/main/java/acr/browser/lightning/adblock/whitelist/SessionWhitelistModel.kt:24-50 | a domain added before the load completes, and not stored yet, is whitelisted until the load completes and not afterwards |
| `Scenarios.AddSurvivesReload` | app/src/main/java/acr/browser/lightning/adblock/whitelist/SessionWhitelistModel.kt:24-50 | once an add's durable step has run, a new session's load whitelists the URL |
| `Scenarios.AddThenRemoveRace` | app/src/main/java/acr/browser/lightning/adblock/whitelist/SessionWhitelistModel.kt:24-62 | add(u) then remove(u) on a store without u's domain, with the remove's step run first: the store ends holding the add's entry while u is not whitelisted, and completing the load whitelists u again |
| `Scenarios.AddThenRemoveRaceAfterLoad` | app/src/main/java/acr/browser/lightning/adblock/whitelist/SessionWhitelistModel.kt:24-62 | in a loaded session, add(u) then remove(u) on a store without u's domain, the remove's step run first: the store ends holding the domain, u is not whitelisted, memory and store no longer converge, and a new session's load whitelists u |
| `Scenarios.AddThenRemoveInOrder` | app/src/main/java/acr/browser/lightning/adblock/whitelist/SessionWhitelistModel.kt:24-62 | the same calls with the steps run in scheduled order leave the store with its original entries, and after the load u is not whitelisted |

## Left out

- Threads and RxJava scheduling (`subscribeOn`, `subscribe`). The deferred work is an explicit queue, run step by step in an order the caller chooses. Thread safety of the set, memory visibility, and the atomicity of the reference swap under concurrent reads are not modelled.
- The lookup and the write of one durable step run as one indivisible step. Two steps whose lookups interleave before either writes are not modelled. In the source this could happen only if the database scheduler ran chains on more than one thread, and the scheduler's definition is not part of this model.
- The initial load reads the store and swaps the set in one step. When its read and its swap are separated, the other steps that can run between them give the same final state as running them before or after this one step.
- `AdBlockWhitelistRepository` and its database are not part of this model. The lookup returns the first stored entry for the domain. An insert appends. A delete removes one entry equal to the one found.
- `domainForUrl` is not part of this model. It is a function value that the session is constructed with.
- `System.currentTimeMillis()` is the `now` parameter of `AddUrlToWhitelist`.
- `Log.d` calls, and dependency injection (`@Inject`, `@Singleton`, `@Named`).
- Store failures. This class does not handle them: its `subscribe` calls pass no error consumer, so a failure goes to RxJava's global error handler, which is not modelled. The model's load and durable steps never fail.
- `Scenarios.AddThenRemoveInOrder`: states that the store ends with its original entries as a multiset, not in their original sequence order. The repository's order of entries is not observable through the session.
