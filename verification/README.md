# Bucket4j remote-command core, modelled in Dafny

Bucket4j keeps a token bucket's state in a shared remote store. Clients ask the store to run
*remote commands* against a *mutable entry*, which is a short-lived view over one key's slot.
Every value that crosses the wire is written by a versioned serialization handle. This project
models three pieces of that protocol:

- **`GenericEntry`** (`generic_entry.dfy`). This is the per-invocation entry. It holds the state
  decoded from the bytes fetched for the key, or nothing if the key is empty. It also holds the
  state a command asked to write back. The model is an immutable datatype with two `Option`
  fields and pure observers (`Exists`, `Get`, `Set`, `ModifiedState`, `IsModified`).
- **`GetConfigurationCommand`** (`get_configuration_command.dfy`). This is the read-only command
  that returns a bucket's configuration. The module also models the command's serialization handle
  over a stream of Java `int`s: one format-version `int`, no payload, typeId 33. It covers content
  equality and the telemetry hooks too.
- **`HazelcastSerializer`** (`hazelcast_serializer.dfy`). This is the table of nineteen Hazelcast
  serializers with fixed typeIds 1..19. It covers `withBaseTypeId` and `getAllSerializers(base)`,
  whose typeId addition is Java `int` addition with 32-bit wrap-around (`java_int.dfy`).

Supporting modules:
- `wrappers.dfy` (`Option`, `Result`) stands in for Java's nullable references and exceptions.
- `errors.dfy` lists the exceptions as values.
- `versioning.dfy` holds the format version 5.0.0 and the `Versions.check` range test.
- `remote_state.dfy` declares `RemoteBucketState` over the abstract types `BucketConfiguration`
  and `BucketState`.

## Model

| member | source | states |
|---|---|---|
| GenericEntry.NewEntry | bucket4j-core/src/main/java/io/github/bucket4j/distributed/proxy/generic/GenericEntry.java:33-40 | absent bytes give an entry that does not exist; present bytes are decoded once, and the entry exists exactly when the decoder returns a state, which `get` then yields; a decoder returning null gives a non-existent entry; a decoder failure propagates; a new entry is never modified and has no modified state |
| GenericEntry.Entry.Exists | bucket4j-core/src/main/java/io/github/bucket4j/distributed/proxy/generic/GenericEntry.java:37-40 | `exists` holds exactly when an original state is present |
| GenericEntry.Entry.Get | bucket4j-core/src/main/java/io/github/bucket4j/distributed/proxy/generic/GenericEntry.java:47-50 | `get` succeeds exactly when the entry exists and then yields the original state; on a non-existent entry it fails fast with a null-reference error |
| GenericEntry.Entry.Set | bucket4j-core/src/main/java/io/github/bucket4j/distributed/proxy/generic/GenericEntry.java:42-62 | after `set(s)`, `exists` and `get` are as before, `getModifiedState` is `s`, and `isModified` holds exactly when `s` is not null |
| GenericEntry.Entry.ModifiedState | bucket4j-core/src/main/java/io/github/bucket4j/distributed/proxy/generic/GenericEntry.java:52-54 | `getModifiedState` returns the state recorded by the last `set`, or nothing |
| GenericEntry.Entry.IsModified | bucket4j-core/src/main/java/io/github/bucket4j/distributed/proxy/generic/GenericEntry.java:60-62 | `isModified` holds exactly when `getModifiedState` is not null |
| GenericEntry.SetAllKeepsOriginal | bucket4j-core/src/main/java/io/github/bucket4j/distributed/proxy/generic/GenericEntry.java:38-54 | after any sequence of `set` calls, `exists` and `get` are unchanged, and the modified state is the one from the last call (or the earlier one if there was no call) |
| GenericEntry.LastSetWins | bucket4j-core/src/main/java/io/github/bucket4j/distributed/proxy/generic/GenericEntry.java:43-45 | of two consecutive `set` calls the second alone decides the entry |
| GenericEntry.SetNullRestoresFresh | bucket4j-core/src/main/java/io/github/bucket4j/distributed/proxy/generic/GenericEntry.java:43-62 | `set(null)` after any history returns the entry to exactly the unmodified condition it was constructed in |
| GetConfigurationCommand.Execute | bucket4j-core/src/main/java/io/github/bucket4j/distributed/remote/commands/GetConfigurationCommand.java:39-46 | the result is bucket-not-found exactly when the entry does not exist; otherwise it is success carrying the stored state's configuration; the entry is returned unchanged (no `set`) |
| GetConfigurationCommand.ExecuteRequestsNoWrite | bucket4j-core/src/main/java/io/github/bucket4j/distributed/remote/commands/GetConfigurationCommand.java:39-46 | on an entry built from the backend's bytes, execution leaves nothing to write back; absent bytes, or bytes decoded to null, give bucket-not-found; otherwise the result is the configuration decoded from the bytes |
| GetConfigurationCommand.ExecuteIsRepeatable | bucket4j-core/src/main/java/io/github/bucket4j/distributed/remote/commands/GetConfigurationCommand.java:39-46 | the command is read-only and ignores the clock: running it again at any time on what it left gives the same result |
| GetConfigurationCommand.Serialize | bucket4j-core/src/main/java/io/github/bucket4j/distributed/remote/commands/GetConfigurationCommand.java:58-63 | `serialize` writes exactly one `int`, the 5.0.0 format number, with no payload; that number passes the reader's [5.0.0, 5.0.0] check |
| GetConfigurationCommand.Deserialize | bucket4j-core/src/main/java/io/github/bucket4j/distributed/remote/commands/GetConfigurationCommand.java:51-56 | an empty stream fails with end-of-stream; a first `int` other than the 5.0.0 format number fails as an incompatible version in the range [5.0.0, 5.0.0]; otherwise the command is read and exactly one `int` is consumed |
| Versioning.Check | bucket4j-core/src/main/java/io/github/bucket4j/distributed/remote/commands/GetConfigurationCommand.java:52-53 | the format number read from the wire is accepted exactly when it lies between the minimum and maximum version numbers; otherwise the failure reports the number and both bounds |
| GetConfigurationCommand.RoundTrip | bucket4j-core/src/main/java/io/github/bucket4j/distributed/remote/commands/GetConfigurationCommand.java:51-85 | reading back what `serialize` wrote succeeds whatever follows in the stream and whatever compatibility versions are used; it yields a command equal by content to the original and leaves the rest of the stream |
| GetConfigurationCommand.DeserializeAcceptsOnlySerialized | bucket4j-core/src/main/java/io/github/bucket4j/distributed/remote/commands/GetConfigurationCommand.java:51-63 | conversely, every stream that `deserialize` accepts begins with the serialized form of the decoded command |
| GetConfigurationCommand.TypeId | bucket4j-core/src/main/java/io/github/bucket4j/distributed/remote/commands/GetConfigurationCommand.java:65-68 | the handle's typeId is the fixed constant 33 |
| GetConfigurationCommand.HandleShape | bucket4j-core/src/main/java/io/github/bucket4j/distributed/remote/commands/GetConfigurationCommand.java:51-68 | a one-`int` stream is read back exactly when it is what `serialize` writes; no other format number is accepted |
| GetConfigurationCommand.EqualsByContent | bucket4j-core/src/main/java/io/github/bucket4j/distributed/remote/commands/GetConfigurationCommand.java:82-85 | any two GetConfiguration commands are equal by content |
| GetConfigurationCommand.IsImmediateSyncRequired | bucket4j-core/src/main/java/io/github/bucket4j/distributed/remote/commands/GetConfigurationCommand.java:87-90 | an immediate sync is never required, whatever the unsynchronized tokens and the time since the last sync |
| GetConfigurationCommand.EstimateTokensToConsume | bucket4j-core/src/main/java/io/github/bucket4j/distributed/remote/commands/GetConfigurationCommand.java:92-95 | the command expects to consume zero tokens |
| GetConfigurationCommand.GetConsumedTokens | bucket4j-core/src/main/java/io/github/bucket4j/distributed/remote/commands/GetConfigurationCommand.java:97-100 | the tokens reported as consumed for any returned configuration equal the estimate |
| GetConfigurationCommand.TelemetryMatchesExecution | bucket4j-core/src/main/java/io/github/bucket4j/distributed/remote/commands/GetConfigurationCommand.java:92-100 | for any successful execution, the consumed tokens reported for the returned configuration equal the up-front estimate, zero |
| HazelcastSerializer.NewSerializer | bucket4j-hazelcast/src/main/java/io/github/bucket4j/grid/hazelcast/serialization/HazelcastSerializer.java:100-104 | `getTypeId` returns exactly the typeId given to the constructor, and the type and handle are the ones given |
| HazelcastSerializer.Serializer.GetTypeId | bucket4j-hazelcast/src/main/java/io/github/bucket4j/grid/hazelcast/serialization/HazelcastSerializer.java:114-117 | `getTypeId` returns the serializer's typeId |
| HazelcastSerializer.Serializer.GetSerializableType | bucket4j-hazelcast/src/main/java/io/github/bucket4j/grid/hazelcast/serialization/HazelcastSerializer.java:110-112 | `getSerializableType` returns the serializer's class |
| HazelcastSerializer.Serializer.WithBaseTypeId | bucket4j-hazelcast/src/main/java/io/github/bucket4j/grid/hazelcast/serialization/HazelcastSerializer.java:106-108 | the copy's typeId is `typeId + base` when that fits in an `int`, and is otherwise congruent to it modulo 2^32; the type and handle are unchanged |
| HazelcastSerializer.WithBaseTypeIdComposes | bucket4j-hazelcast/src/main/java/io/github/bucket4j/grid/hazelcast/serialization/HazelcastSerializer.java:106-108 | shifting by 0 gives a copy with the same typeId, class and handle, and shifting by `a` then `b` gives the same typeId, class and handle as shifting once by `a + b` under Java `int` addition |
| HazelcastSerializer.BuiltinTypeId | bucket4j-hazelcast/src/main/java/io/github/bucket4j/grid/hazelcast/serialization/HazelcastSerializer.java:28-52 | each type's declared typeId lies in 1..19, and the independent id-to-type table maps it back to that type |
| HazelcastSerializer.Builtin | bucket4j-hazelcast/src/main/java/io/github/bucket4j/grid/hazelcast/serialization/HazelcastSerializer.java:28-52 | each type's static serializer has that type, that type's own handle, and its declared typeId in 1..19 |
| HazelcastSerializer.BuiltinTypeIdsAreABijection | bucket4j-hazelcast/src/main/java/io/github/bucket4j/grid/hazelcast/serialization/HazelcastSerializer.java:28-52 | every id in 1..19, and no other, belongs to a declared type, and that type is declared with exactly this id; with `BuiltinTypeId` the table is a bijection between the nineteen types and 1..19 |
| HazelcastSerializer.BuiltinTypeIdsDistinct | bucket4j-hazelcast/src/main/java/io/github/bucket4j/grid/hazelcast/serialization/HazelcastSerializer.java:28-52 | two different types are never declared with the same typeId |
| HazelcastSerializer.RegisteredTypeIdAt | bucket4j-hazelcast/src/main/java/io/github/bucket4j/grid/hazelcast/serialization/HazelcastSerializer.java:67-91 | the `getAllSerializers` list is in declaration order, except that the estimation probe (id 16) comes before the consumption probe (id 15) |
| HazelcastSerializer.RegisteredPositionOf | bucket4j-hazelcast/src/main/java/io/github/bucket4j/grid/hazelcast/serialization/HazelcastSerializer.java:67-91 | each type appears in the `getAllSerializers` list at the position its typeId implies |
| HazelcastSerializer.RegistrationOrderIsComplete | bucket4j-hazelcast/src/main/java/io/github/bucket4j/grid/hazelcast/serialization/HazelcastSerializer.java:67-91 | the list names every one of the nineteen types, and none twice |
| HazelcastSerializer.GetAllSerializers | bucket4j-hazelcast/src/main/java/io/github/bucket4j/grid/hazelcast/serialization/HazelcastSerializer.java:54-91 | the list has nineteen serializers; for every type it holds one with that type's handle and its declared typeId shifted by the base; the typeIds are pairwise distinct for every base, including bases where the shifted ids wrap around; the set of typeIds is exactly {1..19} shifted by the base under Java `int` addition, so when `base + 19` fits in an `int` they all lie in `base + 1 .. base + 19` |
| HazelcastSerializer.AllSerializersWithZeroBase | bucket4j-hazelcast/src/main/java/io/github/bucket4j/grid/hazelcast/serialization/HazelcastSerializer.java:67-91 | with base 0 each listed serializer is a copy of the declared one for its type, with the same typeId, class and handle |
| HazelcastSerializer.Read | bucket4j-hazelcast/src/main/java/io/github/bucket4j/grid/hazelcast/serialization/HazelcastSerializer.java:129-132 | `read(in)` decodes exactly as `read0` |
| HazelcastSerializer.ReadAs | bucket4j-hazelcast/src/main/java/io/github/bucket4j/grid/hazelcast/serialization/HazelcastSerializer.java:134-137 | `read(in, aClass)` decodes exactly as `read0`, whatever class is passed |
| HazelcastSerializer.ReadOverloadsAgree | bucket4j-hazelcast/src/main/java/io/github/bucket4j/grid/hazelcast/serialization/HazelcastSerializer.java:124-141 | both `read` overloads decode alike whatever class is passed; reading and writing through a shifted copy behave as through the original |

## Left out

- The Hazelcast streams (`ObjectDataInput`, `ObjectDataOutput`, `ReadWriteAdapter`) are a foreign
  library. `Write`, `Read` and `ReadAs` take the handle's encoder or decoder as a function
  parameter, so only the delegation to the handle is modelled. `destroy` does nothing and is not
  modelled.
- `InternalSerializationHelper.deserializeState` and `serializeState` are outside this model.
  The decoder is a parameter of `GenericEntry.NewEntry`: a decoding exception appears as its
  `Failure`, and a null result as `Success(None)`. `getModifiedStateBytes` is left out because its
  result is just `serializeState` applied to the modified state, and that encoding (including what
  it does with `null`) lies outside this model.
- GenericEntry.SetAllKeepsOriginal, GenericEntry.SetNullRestoresFresh: `RemoteBucketState` is
  treated as an immutable value, but in bucket4j it is a mutable object and `get` returns the
  stored object itself (GenericEntry.java:48-49). A command that mutates the object it got from
  `get` therefore changes every later `get`, and `set(get())` makes the original and the modified
  state the same object. The lemmas' "`get` unchanged" and "the condition it was constructed in"
  hold for the references the entry keeps, not for the contents of a state mutated through them.
- HazelcastSerializer.Builtin: the nineteen `*_SERIALIZER` fields are `public static` but not
  `final`, so other code can reassign them, and `getAllSerializers` then returns the replacement.
  The model treats them as the constants they are initialised to. `GetAllSerializers` and the
  lemmas about the table hold only while no field has been reassigned.
- HazelcastSerializer.AllSerializersWithZeroBase, HazelcastSerializer.WithBaseTypeIdComposes:
  serializers are modelled as values compared field by field. In Java `withBaseTypeId` always
  builds a new object (HazelcastSerializer.java:106-108), and the class does not override
  `equals`. So `getAllSerializers(0)` holds fresh copies, and a shift by 0 gives a copy, not the
  original. The lemmas promise equal typeId, class and handle, not object identity.
- `BucketConfiguration`, `BucketState` and their handles are abstract types. The model never
  inspects their contents. The success result of `execute` does not record which
  `SERIALIZATION_HANDLE` the payload travels with.
- The `Versions` enum is outside this model. Version 5.0.0 is given the format number 1, as
  in the library's enum. `Versions.check` is modelled as one incompatible-version error for any
  number outside `[min, max]`. The `backwardCompatibilityVersion` argument of
  `serialize`/`deserialize` is accepted and ignored, as the command's handle does.
- The rest of the closed command set (TryConsume, AddTokens, Reserve, ReplaceConfiguration, ...)
  and the token refill arithmetic are outside this model. `RemoteCommand` has its one
  modelled variant.
- The compare-and-swap executor and its retry loop are outside this model. Their point is
  concurrency against a remote backend.
- `HazelcastProxyManager` is left out. It is a thin facade over a Hazelcast map whose only logic
  is a null check of the map.
- The legacy `TokenBucketRefillStrategy` is left out. Its constructor always throws, so no
  instance can exist. `setupInitialState` and `refill` have commented-out bodies.
  `timeRequiredToRefill` and `sizeOfState` have live bodies, but nothing can reach them.
- HazelcastSerializer.GetAllSerializers: when no overflow occurs, the contract states that the ids
  lie in `base + 1 .. base + 19`, but not as a set equality with that interval. Dafny cannot find
  triggers for an integer-interval set comprehension. Equality follows from the set-of-ids clause
  together with `JavaInt.Add`'s contract, or from the range, the count of nineteen and pairwise
  distinctness.

## Notes on the design

- The entry is a value, not a mutable object. `Set` returns the updated entry, and `Execute`
  returns the entry as the command left it. Any number of `set` calls is allowed and the last one
  wins, which is what the code does. No at-most-once discipline is enforced.
- `withBaseTypeId` adds with Java `int` semantics. The typeIds of `getAllSerializers(base)`
  therefore wrap around for bases near `Integer.MAX_VALUE`, and they stay pairwise distinct even
  then.
