# Service registry: registration table, dependency filter, dispatch and bootstrap sync

This project models the in-memory service registry of `registry/server.go`.
Services register with a name, a URL, the names of the services they depend on,
and an update URL at which they accept patches. The registry keeps one table of
registrations. The model covers these operations:

- **add** appends a registration. It then sends the new service a *bootstrap*
  patch listing every registered service it requires. Finally it *notifies*
  every registration that depends on the new service.
- **remove** finds the first registration with the given service URL. It
  notifies dependents of the removal and then splices that entry out of the table.
  It fails with "not found" when no registration has the URL.
- **notify** is modelled in the source's loop order. For each registration,
  and for each service name it requires, the registry builds the part of the
  change whose entries carry that name. That part is sent only if it is not
  empty. After a failed send, the registration's remaining names are skipped.
- **ServeHTTP** maps a request to a status code: POST means add, DELETE means
  remove, and any other method gets 405.

Outbound HTTP posts are modelled as `Delivery(to, patch)` values that the
operations return. Whether a post fails comes from an oracle parameter
`fails: Delivery -> bool`. JSON decoding of a request is the oracle
`decode: string -> Option<Registration>`.

The specification functions are `Filter.Select` and `Filter.FilterFor`,
`Dispatch.Relevant`, `Dispatch.CutAtFailure`, `Dispatch.RecipientAttempts` and
`Dispatch.NotifyAttempts`, `Bootstrap.CatchUp`, `Table.FirstMatch` and
`Table.Without`. Lemmas prove their properties: membership in both directions,
preserved order, independence between recipients, the early stop after a
failure, and undoing an add with a remove. The loop-based methods of the class
`Server.Registry` and `Dispatch.NotifyRecipient` follow the source's loops. They
are proved equal to those functions.

Behaviour of the code that a reader might not expect, modelled as written:

- A design that sends one merged patch per recipient differs from the code. The
  code sends one patch per *(recipient, required name)* pair. After a failed
  send it stops that recipient's remaining sends.
- If the same required name is listed twice, the bootstrap patch holds an
  entry twice (`Bootstrap.Matches`).
- `add` inserts the registration before the bootstrap sync. The registration
  stays in the table when the sync fails. A service that requires its own name
  appears in its own bootstrap patch and is notified of its own arrival.
- `remove` notifies using the table *before* the entry is removed, so the
  departing service is itself notified if it requires its own name.
- `remove` reads and writes the package-level instance rather than its receiver.
  The model has a single `Registry` object, so the two are the same.

## Model

| member | source | states |
|---|---|---|
| `Filter.Select` | registry/server.go:47-58 | every selected entry carries the required name, and there are no more of them than in the input |
| `Filter.FilterFor` | registry/server.go:45-58 | the per-name patch: `Added` and `Remove` are the selections of the full patch's lists by that name; every entry carries the name and neither list is longer than the full one (meaning in `SelectMembers`, `SelectConcat`, `FilterForEmpty`) |
| `Filter.SelectMembers` | registry/server.go:47-58 | an entry is selected exactly when it is in the list and carries the name (both directions) |
| `Filter.SelectConcat` | registry/server.go:47-58 | matched entries keep their relative order: selecting from a concatenation is the concatenation of the selections |
| `Filter.SelectAllMatching` | registry/server.go:47-52 | no matching entry is dropped: a list whose entries all carry the name is selected whole |
| `Filter.SelectIdempotent` | registry/server.go:47-58 | filtering a filtered list by the same name changes nothing |
| `Filter.FilterForEmpty` | registry/server.go:45-59 | the per-name patch is empty exactly when no added or removed entry carries that name (the `sendUpdate` decision) |
| `Filter.FilterPatch` | registry/server.go:45-59 | the two loops build exactly the per-name patch, and `sendUpdate` is set iff that patch is not empty |
| `Dispatch.Relevant` | registry/server.go:44-66 | one recipient gets at most one send per required service |
| `Dispatch.RelevantSound` | registry/server.go:44-60 | every send goes to the recipient's update URL, carries a non-empty patch, and that patch is the filter of the full patch by one of its required names |
| `Dispatch.RelevantComplete` | registry/server.go:46-60 | every required name whose filtered patch is not empty gets a send of that patch |
| `Dispatch.RelevantConcat` | registry/server.go:44-66 | the intended sends follow the order of the required services: those for a concatenation are those for each part |
| `Dispatch.CutAtFailure` | registry/server.go:59-65 | stopping after a failure never attempts more sends than there are |
| `Dispatch.CutIsFailurePrefix` | registry/server.go:59-65 | the attempted sends are a prefix of the intended ones; all but the last succeeded; if any were skipped, the last failed; with no failure all are sent |
| `Dispatch.CutConcat` | registry/server.go:59-65 | once a failure has occurred, later required services of that recipient are skipped; otherwise sending continues |
| `Dispatch.RecipientAttempts` | registry/server.go:43-67 | the sends of one goroutine: the intended sends (`Relevant`) cut after the first failure (`CutAtFailure`); at most one per required service, each to the recipient's update URL with a non-empty patch |
| `Dispatch.NotifyAttempts` | registry/server.go:39-69 | the sends of `notify`: each registration's `RecipientAttempts` in table order; every send carries a non-empty patch and goes to the update URL of some registration (further described by `NotifyConcat`, `NotifyOnlyRelevant`, `NotifyNoDependents`) |
| `Dispatch.NotifyConcat` | registry/server.go:42-68 | recipients are independent: the sends for a table are the sends for each part of it, so one recipient's failure does not affect another |
| `Dispatch.NotifyOnlyRelevant` | registry/server.go:42-60 | every patch sent by notify is non-empty and equals the filter of the full patch by a single required name of a registration whose update URL it is sent to |
| `Dispatch.RecipientNoDependency` | registry/server.go:44-59 | a recipient that requires none of the changed names is sent nothing |
| `Dispatch.NotifyNoDependents` | registry/server.go:39-69 | a change that no registration depends on (such as removing a service nobody requires) produces no sends |
| `Dispatch.NoSelfNotification` | registry/server.go:28-35 | a registering service that does not require its own name gets no fan-out send for its own addition |
| `Dispatch.DependentLearnsOfProvider` | registry/server.go:44-60 | a dependent requiring exactly the new provider receives exactly one send, whose patch adds only that provider |
| `Dispatch.NotifyRecipient` | registry/server.go:43-67 | the per-recipient loop, with its early return on a failed send, attempts exactly the cut of the intended sends |
| `Bootstrap.Matches` | registry/server.go:77-84 | a table entry contributes its own name and URL once per occurrence of its name among the required services |
| `Bootstrap.CatchUp` | registry/server.go:75-85 | the bootstrap `Added` list: each table entry's `Matches` in table order; every entry names a required service (further described by `CatchUpConcat`, `CatchUpSound`, `CatchUpComplete`) |
| `Bootstrap.CatchUpConcat` | registry/server.go:76-85 | the bootstrap `Added` list follows table order |
| `Bootstrap.CatchUpSound` | registry/server.go:76-85 | every bootstrap entry is the name and URL of a registered service whose name is required |
| `Bootstrap.CatchUpComplete` | registry/server.go:76-85 | every registered service whose name is required appears in the bootstrap patch |
| `Bootstrap.CatchUpNoRequirements` | registry/server.go:75-86 | a registration requiring nothing is sent an empty bootstrap patch |
| `Table.FirstMatch` | registry/server.go:106-107 | the index found is the first registration whose service URL matches; none is found iff no registration matches |
| `Table.Without` | registry/server.go:117 | the splice drops exactly one entry: length drops by one, earlier entries stay, later ones shift down in order, and the multiset loses only that entry |
| `Table.RemoveUndoesAdd` | registry/server.go:105-119 | removing the URL of a just-appended registration whose URL is new restores the table as it was before the append |
| `Table.RemoveFirstOnly` | registry/server.go:106-119 | with duplicate URLs only the first is removed: exactly one fewer registration carries the URL |
| `Server.Registry.constructor` | registry/server.go:125-128 | the registry starts with an empty table |
| `Server.Registry.Add` | registry/server.go:23-37 | appends exactly one registration at the end; sends the bootstrap patch computed on the table that already holds it (containing its own entry when it requires its own name); returns that send's failure; and issues the "added" notification for exactly its own name and URL whether or not the bootstrap failed |
| `Server.Registry.Notify` | registry/server.go:39-69 | the sends attempted are those of each registration in table order, each the cut of its intended per-name sends |
| `Server.Registry.SendRequiredServices` | registry/server.go:71-91 | sends one patch, with the catch-up as `Added` and an empty `Remove`, to the update URL even when `Added` is empty; returns whether that send failed |
| `Server.Registry.Remove` | registry/server.go:105-123 | on an unknown URL: not found, table unchanged, nothing sent; otherwise success, only the first match is spliced out, and the notification, computed on the table before removal, carries exactly that entry's name and URL in `Remove` and nothing in `Added` |
| `Server.Registry.ServeHTTP` | registry/server.go:134-173 | 405 for other methods; POST: 400 for an unreadable or undecodable body, otherwise add and 400 iff the bootstrap send failed, else 200; DELETE: 500 for an unreadable body, 400 if not found, else 200 |

## Left out

- The read-write mutex and the goroutine per recipient in `notify` are not modelled. The model performs the sends one after another in table order. Interleavings, and the window in which the table is read while it is being changed, are not modelled.
- `sendPatch` is not modelled: JSON marshalling and `http.Post` become the `fails` oracle. The oracle gives the same outcome to two identical sends. JSON `null` for an unset list and an empty list are both modelled as `[]`.
- Server.Registry.Add: sends that never return are not modelled. Every send returns, failed or succeeded. `http.Post` on the default client has no timeout, so if the bootstrap post hangs, `add` never reaches its notification.
- The logging of a failed send in `notify` is not modelled. The model only stops that recipient's remaining sends.
- The logging and body reading in `ServeHTTP` are not modelled. Body reading is reduced to `Body.Unreadable` and JSON decoding to the `decode` oracle. The model writes 200 for success, the status `net/http` uses when the handler writes no header.
- The error text of `remove` is reduced to `Outcome.NotFound(url)`. The error value of `sendRequiredServices` is reduced to a flag.
- `cmd/logservice/main.go` is not modelled. It only starts a process and wires I/O.
- Uniqueness of service URLs is not enforced, as in the source. `Table.RemoveFirstOnly` states what happens with duplicates.
