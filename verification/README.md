# User store of a small REST service, in Dafny

The service keeps its users in a `HashMap<String, User>` behind one mutex and
reads and changes it through five request handlers: `get_user`, `add_user`, `get_users`,
`update_users` and `remove_user`. Each handler holds the lock for its whole
body, so this model treats each one as a single atomic transition on an
immutable `map<string, User>`. A transition yields the map left behind and a
reply that is either `Ok(payload)` or `NotFound`.

- `users.dfy` (module `Users`): the `User` record, which holds only a name, with `New`, `Name` and `SetName`.
- `decimal.dfy` (module `Decimal`): `NatToDecimal`, the base-ten rendering `usize::to_string` produces. A digit parser, `DecimalToNat`, serves as its inverse, and the rendering is proved injective.
- `handlers.dfy` (module `Handlers`): the five handlers as functions, lemmas relating them, and the key-assignment invariant.
- `sessions.dfy` (module `Sessions`): requests as a state machine, `Step` and `Run`, with lemmas over request sequences.
- `startup.dfy` (module `Startup`): the seed map `{"1" ↦ Alice}` and worked scenarios.

The key rule of `add_user` is modelled exactly as written. The new key is the
decimal form of the current size plus one. While the live keys are exactly
"1", ..., "n", that key is fresh and the map grows by one. After a delete,
the key can already be live, and then the create silently replaces that record
and the map does not grow. The two size clauses of `Handlers.AddUser` state
this for every map: the create grows the map by one exactly when its key is
absent, and keeps the size exactly when the key is already live.
`CreateAfterDeleteOverwrites` shows when that happens: deleting any key other
than "n" from keys "1", ..., "n". `DeleteOneThenCreateOverwritesTwo` shows the
smallest case.

Three facts about the code shape the model:

- A `User` (`src/users.rs:7-9`) has no `id` field. The map key is the only identifier, and the record returned by create or update carries no id.
- `remove_user` never answers not-found. The doc comment at `src/handlers.rs:155` promises a not-found reply for an absent key, but the code (`src/handlers.rs:162-164`) always answers with the remaining map. The model follows the code.
- Creates and deletes do not balance: after N creates and M deletes the store need not hold N - M records. `CreatesMinusDeletesCanOvercount` shows three creates and one delete from an empty map leaving one record, not two. While the live keys are exactly "1", ..., "n" (as from the seed), a delete of a live key other than "n" makes the next create reuse the live key "n" (`CreateAfterDeleteOverwrites`). While the live keys are exactly "1", ..., "n" and no delete happens, the size equals n plus the number of creates (`NoDeletesSize`, `CreatesFromSeed`, `CreatesFromEmpty`).

## Model

| member | source | states |
|---|---|---|
| Users.New | src/users.rs:12-14 | a record built from `n` holds the name `n` |
| Users.Name | src/users.rs:16-18 | `name()` loses nothing: a fresh record built from the name read back equals the record |
| Users.SetName | src/users.rs:20-22 | after renaming, the name is the new one and the record equals a fresh record with that name: nothing else survives |
| Users.NameOfNew | src/users.rs:12-18 | `name()` of `User::new(n)` is `n` |
| Users.NewOfName | src/users.rs:7-18 | rebuilding a record from its name gives back the same record, so reading the name loses nothing |
| Users.SetNameThenName | src/users.rs:16-22 | `set_name(n)` followed by `name()` yields `n` |
| Users.SetNameLastWriteWins | src/users.rs:20-22 | `set_name(a); set_name(b)` equals `set_name(b)` |
| Users.UserIsItsName | src/users.rs:7-9 | two records are equal exactly when their names are equal, so a record holds nothing but its name and no id |
| Decimal.NatToDecimal | src/handlers.rs:95 | the rendering of any n (the key uses n = len + 1) is a non-empty digit string with no leading zero; it starts with '0' only for zero and has one digit exactly below ten |
| Decimal.ParseOfRender | src/handlers.rs:95 | reading a rendered number back as digits gives the number |
| Decimal.RenderOfParse | src/handlers.rs:95 | every digit string without a leading zero is the rendering of its value, so the two directions are inverse |
| Decimal.NatToDecimalInjective | src/handlers.rs:95 | two numbers render to the same key if and only if they are equal |
| Handlers.NextKey | src/handlers.rs:92-95 | the key a create uses is a canonical decimal string, never "0", and its value as a number is the current size plus one |
| Handlers.GetUser | src/handlers.rs:66-71 | answers the stored record when the key is present and not-found when it is absent; the map is unchanged either way |
| Handlers.AddUser | src/handlers.rs:91-97 | stores and returns a record with the request's name under the decimal of size plus one; keeps every other entry; adds exactly that key; grows by one if and only if the key was absent, otherwise overwrites and keeps the size |
| Handlers.GetUsers | src/handlers.rs:112-114 | answers the whole map and leaves it unchanged |
| Handlers.UpdateUser | src/handlers.rs:136-142 | on a present key, renames only that entry, keeps the key set and returns the renamed record; on an absent key, answers not-found and leaves the map unchanged |
| Handlers.RemoveUser | src/handlers.rs:162-164 | drops the key and keeps all other entries; always answers `Ok` with the remaining map, also when the key was absent; shrinks by one exactly when the key was present |
| Handlers.RemoveUserIdempotent | src/handlers.rs:162-164 | removing a key twice gives the same map and reply as removing it once |
| Handlers.RemoveUserShrinksByAtMostOne | src/handlers.rs:162-164 | a removal loses at most one record |
| Handlers.AddThenGet | src/handlers.rs:66-71 | a created record reads back under the key the create used |
| Handlers.UpdateThenGet | src/handlers.rs:137-142 | after an update, a lookup of a present key gives the renamed record; an absent key stays not-found |
| Handlers.RemoveThenGet | src/handlers.rs:162-164 | after a removal, the removed key reads as not-found and every other key reads as before |
| Handlers.IsKeyUpToRendering | src/handlers.rs:95 | the rendering of `i` is one of the keys "1", ..., "n" exactly when 1 <= i <= n |
| Handlers.IsKeyUpToIsRendering | src/handlers.rs:95 | every key among "1", ..., "n" is the rendering of its own value, so no other string passes for one of them |
| Handlers.KeyUpToNext | src/handlers.rs:92-95 | the keys "1", ..., "n+1" are the keys "1", ..., "n" plus exactly the rendering of n + 1 |
| Handlers.KeysUpToMembers | src/handlers.rs:95 | the set built from the renderings of 1, ..., n holds a string exactly when it is one of the keys "1", ..., "n" |
| Handlers.KeysUpToSize | src/handlers.rs:95 | the keys "1", ..., "n" are n distinct strings |
| Handlers.KeysAreOneToAsSet | src/handlers.rs:95 | "the live keys are exactly "1", ..., "n"" holds exactly when the key set equals the set of the renderings of 1, ..., n |
| Handlers.KeysAreOneToSize | src/handlers.rs:92-95 | a map whose keys are exactly "1", ..., "n" has n records, so its `len()` is n |
| Handlers.AddUserKeepsKeysContiguous | src/handlers.rs:92-95 | if the keys are exactly "1", ..., "n", the next key is the fresh "n+1" and afterwards the keys are exactly "1", ..., "n+1" |
| Handlers.CreateAfterDeleteOverwrites | src/handlers.rs:92-95 | with keys "1", ..., "n" and any key other than "n" deleted, the next create reuses the live key "n", replaces its record and the size stays n - 1 |
| Sessions.Step | src/handlers.rs:62-165 | a request is dispatched to its handler; reads leave the map unchanged; the reply is not-found exactly for a get or update of an absent key |
| Sessions.Creates | src/handlers.rs:86-98 | request-list helper for runs of `add_user` calls: the create requests built from a list of bodies are as many as the bodies |
| Sessions.CreatesAt | src/handlers.rs:86-98 | request-list helper: the i-th of those requests creates the i-th body, so the order of the bodies is kept |
| Sessions.CreateCountOfCreates | src/handlers.rs:86-98 | request-list helper: a run built from k bodies holds exactly k `add_user` calls, which links `NoDeletesSize` to such runs |
| Sessions.CreatesHaveNoDeletes | src/handlers.rs:86-98 | request-list helper: a run built from bodies holds no `remove_user` call |
| Sessions.ReadsLeaveStoreUnchanged | src/handlers.rs:62-115 | any run of get-one and list requests leaves the map as it was |
| Sessions.StepWithoutDeleteKeys | src/handlers.rs:86-143 | a create adds its key, and a get, list or update keeps the key set |
| Sessions.RunAppend | src/handlers.rs:62-165 | serving two runs back to back is serving the first and then the second on the map the first leaves |
| Sessions.CreatesAppend | src/handlers.rs:86-98 | the creates of a list are the creates of any prefix followed by the creates of the matching suffix |
| Sessions.StepKeepsKeysContiguous | src/handlers.rs:62-143 | one get, create, list or update keeps the keys "1", ..., "n" contiguous, one longer exactly after a create |
| Sessions.NoDeletesKeepsKeysContiguous | src/handlers.rs:62-143 | without deletes, keys "1", ..., "n" become "1", ..., "n + number of creates" |
| Sessions.NoDeletesSize | src/handlers.rs:62-143 | from keys exactly "1", ..., "n" and without deletes, the store ends with n + (number of creates) records: no create collides |
| Sessions.CreatesKeepKeysContiguous | src/handlers.rs:92-95 | a run of creates from keys "1", ..., "n" leaves keys "1", ..., "n + k" and keeps every earlier record |
| Sessions.FirstCreateRetrievable | src/handlers.rs:92-97 | in a run of creates from keys "1", ..., "n", the first record, with the first request's name, stays under "n+1" to the end |
| Sessions.CreatedRecordIsRetrievable | src/handlers.rs:92-97 | in such a run the i-th created record, with the i-th request's name, is stored under "n + i + 1" |
| Startup.Seed | src/main.rs:17-21 | the map the server starts with holds one record, and a lookup of "1" finds Alice |
| Startup.SeedKeysAreOneTo | src/main.rs:17-21 | the initial map holds one record, Alice under "1"; its keys are exactly "1", ..., "1", and "1" is the key a create on an empty map would choose |
| Startup.CreatesFromSeed | src/main.rs:19-20 | from the seed, any k creates, including none, leave 1 + k records and keep Alice under "1"; the i-th created record, when there is one, is under "i + 2" |
| Startup.CreatesFromEmpty | src/handlers.rs:92-95 | on an empty map, k creates in a row leave exactly k records |
| Startup.DeleteOneThenCreateOverwritesTwo | src/handlers.rs:92-95 | with keys "1" and "2", deleting "1" and creating uses key "2" and leaves one record, the new one |
| Startup.CreatesMinusDeletesCanOvercount | src/handlers.rs:92-95 | from an empty map, creating twice, deleting "1" and creating again makes three creates and one delete, yet leaves one record, the last one under "2" |
| Startup.SampleSession | src/handlers.rs:62-165 | from the seed: create Bob lands under "2", renaming "1" returns Alicia, deleting "2" returns only Alicia, and looking up "2" is not-found |

## Left out

- The responders `hello`, `echo` and `manual_hello` (`src/handlers.rs:14-49`) touch no state and are not modelled.
- Routing, the `HttpServer` bind and startup (`src/main.rs:23-37`) are not modelled. Only the seed map is kept, as `Startup.Seed`.
- HTTP status codes, response bodies and serde JSON are not modelled. Replies are `Ok(payload)` or `NotFound`, and a request body is the `User` it decodes to.
- The `Arc<Mutex<…>>` and `lock().unwrap()` are not modelled. Every handler holds the lock for its whole body, so each is one atomic step, and a run is the handlers in lock order. A poisoned lock is a process fault, not a store result.
- `println!` logging (`src/handlers.rs:47`, `src/handlers.rs:93`) is output only.
- The `Debug` impl (`src/users.rs:25-29`) depends on Rust's string-escaping formatter.
- Decimal.NatToDecimal: `len + 1` is an unbounded `nat`, not a `usize`. Overflow would need a map with `usize::MAX` entries, which cannot exist in memory.
- `HashMap` iteration order does not matter: the list reply is modelled as the map itself, with no order.
