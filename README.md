# Ehcache 3 core: service locator, serializer resolution, copying value holder

A Dafny model of three pieces of Ehcache 3, with proofs of what each promises.

- **`Spi` (service_locator.dfy)** models the `ServiceLocator`. This is the registry that binds
  service types to service instances. It also discovers default implementations when nothing
  was registered for a type, loads declared dependencies and builds each default once, and
  drives `startAllServices`/`stopAllServices`.
  - Java reflection is replaced by explicit data. Each instance has a `ServiceType` listing
    the types it can be found by, the `@SupplementaryService` marker and its
    `@ServiceDependencies`.
  - The `ServiceLoader` catalog is a map from a service type to the type of its default
    implementation.
  - Each `start`/`stop` call is recorded in an event log, and the set of instances whose
    call throws is an input. The log makes "started once", "stopped once" and "never
    started" statable, the way the tests' counters and mocks do.
  - The locator's own source is not part of this model. Its behaviour is taken from the
    assertions of its test class.
- **`Serialization` (serialization.dfy)** models `DefaultSerializationProvider`. It covers:
  - the copy of the configured registrations into each provider's insertion-ordered map;
  - `find` over the cache's service configurations;
  - `getClassFor`, with its priority order;
  - the put-if-absent default registration for `Serializable` at `start`;
  - routing between the transient and the persistent provider.

  Assignability between Java classes is an abstract relation supplied by the caller.
- **`HeapStore` (value_holder.dfy)** models `CopiedOnHeapValueHolder`. Its four constructors
  are static factory methods that return the `NullPointerException` cases as errors. It
  stores `copyForWrite` of the value and hands out `copyForRead` of the stored copy. The
  `Copier` is a pair of uninterpreted functions.
- **`Results` (results.dfy)** holds the shared `Option`, `Outcome` and `Result` types.

Choices the sources leave open:

- **Lookup policy.** When several non-supplementary instances answer one type, the one
  registered first is returned. The regular-before-supplementary test (lines 69-82 of the
  locator test) is consistent with this.
- **Start order.** The start pass goes through the type index in registration order and starts
  each distinct `Created` instance once. The stop pass does the same for `Started` instances.
- **Start failure.** After a `start` throws, the instances already started are stopped newest
  first, and the original exception is rethrown. Exceptions thrown by `stop` during this
  rollback are not reported.
- **Stop failure.** The stop pass carries on past failing `stop` calls and then throws the
  first failure, in stop order.

## Model

| member | source | states |
|---|---|---|
| Spi.KeysSpec | core/src/test/java/org/ehcache/spi/ServiceLocatorTest.java:84-95 | an instance is indexed under a type exactly when the type is its class, or is one of its supertypes and the instance is not supplementary |
| Spi.Keys | core/src/test/java/org/ehcache/spi/ServiceLocatorTest.java:84-95 | a supplementary service is indexed only under its own class; any other service is indexed under its class and every service type it implements |
| Spi.LookupSpec | core/src/test/java/org/ehcache/spi/ServiceLocatorTest.java:69-82 | a lookup finds an instance exactly when one is registered under the key, and returns the first one registered |
| Spi.RegisterLookup | core/src/test/java/org/ehcache/spi/ServiceLocatorTest.java:58-67 | after `addService`, keys that already had an instance keep it, and any other key finds the new instance exactly when the new instance is indexed under it |
| Spi.SupplementaryHidden | core/src/test/java/org/ehcache/spi/ServiceLocatorTest.java:84-95 | registering a supplementary service changes no lookup except the one by its own class |
| Spi.ServiceLocator.constructor | core/src/test/java/org/ehcache/spi/ServiceLocatorTest.java:111-118 | `new ServiceLocator(services...)` registers the services in order: the index is exactly their entries, service by service in registration order, so every lookup afterwards answers the first service indexed under the key, and none when no service is; nothing is started, nothing is built |
| Spi.RegisteredLookup | core/src/test/java/org/ehcache/spi/ServiceLocatorTest.java:69-82 | the index of services registered in order answers each key with the first of them indexed under it |
| Spi.RegistrationOrder | core/src/test/java/org/ehcache/spi/ServiceLocatorTest.java:111-126 | a start or stop pass over the index of services registered in order visits them in strictly ascending registration order, so a service registered after the one whose start fails is never started |
| Spi.FirstProviderNone | core/src/test/java/org/ehcache/spi/ServiceLocatorTest.java:58-67 | after registering services in order, a lookup finds nothing exactly when no service is indexed under the key |
| Spi.FirstProviderFirst | core/src/test/java/org/ehcache/spi/ServiceLocatorTest.java:69-82 | a lookup that finds something finds a service indexed under the key, and no earlier registered service is |
| Spi.LoadedLookup | core/src/test/java/org/ehcache/spi/ServiceLocatorTest.java:176-193 | after loading, a type has no instance exactly when it had none before and none of the new instances is indexed under it |
| Spi.NewEntriesNone | core/src/test/java/org/ehcache/spi/ServiceLocatorTest.java:195-254 | the entries added by loading answer a type exactly when one of the new instances is indexed under it |
| Spi.AllDependenciesCovered | core/src/test/java/org/ehcache/spi/ServiceLocatorTest.java:176-193 | once the dependencies of the instances registered before loading and of those built during it are covered, every registered instance has all its dependencies |
| Spi.NothingMissingNothingBuilt | core/src/test/java/org/ehcache/spi/ServiceLocatorTest.java:176-193 | when every requested type already has an instance, explicitly added ones included, no default is built |
| Spi.NoDependenciesNothingBuilt | core/src/test/java/org/ehcache/spi/ServiceLocatorTest.java:128-167 | loading the dependencies of services that declare none builds nothing and cannot fail, so the start pass runs over exactly the registered services |
| Spi.ServiceLocator.AddService | core/src/test/java/org/ehcache/spi/ServiceLocatorTest.java:58-67 | the instance gets the next identity and is indexed under its keys; earlier successful lookups are unchanged, and an unmatched key finds it exactly when it has that key; the locator invariant is kept |
| Spi.ServiceLocator.GetService | core/src/test/java/org/ehcache/spi/ServiceLocatorTest.java:169-174 | a registered instance wins and nothing changes; otherwise the catalogued default is built once (its class never built before), appended as `Created` and indexed under its keys after the existing entries; otherwise null; earlier lookups and the log are kept, and a returned instance is always indexed under the key |
| Spi.ServiceLocator.Discover | core/src/test/java/org/ehcache/spi/ServiceLocatorTest.java:195-254 | the default for a key nobody answers is built, registered and indexed under all its keys after the existing entries, and answers the key; its class was never built before, and its build count goes from 0 to 1 |
| Spi.ServiceLocator.CountBuild | core/src/test/java/org/ehcache/spi/ServiceLocatorTest.java:195-254 | one more construction of a default class that had never been built is counted: its count goes from 0 to 1, so the at-most-once invariant stays meaningful |
| Spi.ServiceLocator.ResolveOne | core/src/test/java/org/ehcache/spi/ServiceLocatorTest.java:176-193 | a dependency is built exactly when it has no instance and has a default, so one with an instance is left alone, even if that instance was added after its consumer; the load fails exactly when the dependency has neither; a build appends the default's entries to the index and records its class, which was never built before |
| Spi.ServiceLocator.Resolve | core/src/test/java/org/ehcache/spi/ServiceLocatorTest.java:195-254 | on success every requested type and every dependency of each newly built default has an instance; on failure the type named has neither an instance nor a default and was requested, directly or as a dependency of a default built by this call; each new instance is the default of a requested type that no instance answered, neither one registered before the call nor one built earlier in it; each default class is built once and never one built before; the index is the old index followed by the entries of each new instance under all its keys, in build order; existing instances and the log are unchanged and new instances are `Created` |
| Spi.ServiceLocator.LoadDependenciesOf | core/src/test/java/org/ehcache/spi/ServiceLocatorTest.java:242-243 | `loadDependenciesOf(type)` makes every direct and transitive dependency of the type resolvable and fails only on one of them that nothing provides; it builds a default only for a dependency that no instance answers at that point, each class once, and indexes each new instance under all its keys after the existing entries |
| Spi.ServiceLocator.ResolveMissingDependencies | core/src/test/java/org/ehcache/spi/ServiceLocatorTest.java:176-193 | on success every dependency of every registered instance has an instance; a failure names a dependency of some instance; a default is built only for a dependency that no instance answers at that point, each class once, and the index gains the new instances' entries after the existing ones |
| Spi.ServiceLocator.StartAllServices | core/src/test/java/org/ehcache/spi/ServiceLocatorTest.java:111-126 | if a dependency cannot be loaded, nothing is started and the missing type is a dependency of some instance; otherwise the calls, the new states and the exception are exactly those of a start pass over the `Created` instances in index order, the new defaults included; as in `ResolveMissingDependencies`, a default is built only for a dependency that no instance answers at that point, each class once, and indexed under all its keys after the existing entries |
| Spi.ServiceLocator.StartRegistered | core/src/test/java/org/ehcache/spi/ServiceLocatorTest.java:111-126 | the start pass makes exactly the calls `StartCalls` lists, leaves the states `StartStates` gives and throws what `StartResult` says |
| Spi.ServiceLocator.Rollback | core/src/test/java/org/ehcache/spi/ServiceLocatorTest.java:111-126 | the started instances are stopped once each, newest first, and end `Stopped` |
| Spi.StartFailureRollsBack | core/src/test/java/org/ehcache/spi/ServiceLocatorTest.java:111-126 | a failed start rethrows the failing instance's own exception; instances after it are never started or stopped; each one before it is started once and stopped once; the failing one is never stopped |
| Spi.StartSuccessStartsOnce | core/src/test/java/org/ehcache/spi/ServiceLocatorTest.java:195-254 | a successful start pass starts each planned instance exactly once and stops none |
| Spi.CountRollbackEvents | core/src/test/java/org/ehcache/spi/ServiceLocatorTest.java:111-126 | a rollback over distinct instances stops each exactly once and starts none |
| Spi.ServiceLocator.StopAllServices | core/src/test/java/org/ehcache/spi/ServiceLocatorTest.java:128-152 | `stop` is called once on every distinct started instance in index order, even after a failure; they all end `Stopped` and no other state changes; the first failure raised is the one thrown |
| Spi.StopPassStopsOnce | core/src/test/java/org/ehcache/spi/ServiceLocatorTest.java:154-167 | the stop pass calls `stop` exactly once on an instance registered under several interfaces, and never on an instance that was not started |
| Spi.Order | core/src/test/java/org/ehcache/spi/ServiceLocatorTest.java:154-167 | the instances a pass visits are duplicate-free, and they are exactly the eligible ones the index reaches |
| Spi.CountStopEvents | core/src/test/java/org/ehcache/spi/ServiceLocatorTest.java:128-152 | stopping a duplicate-free list calls `stop` once per instance and `start` on none |
| Serialization.Provider.constructor | impl/src/main/java/org/ehcache/spi/serialization/DefaultSerializationProvider.java:154-156 | a provider starts with its own copy of the configured registrations, in their order |
| Serialization.DefaultSerializationProvider.constructor | impl/src/main/java/org/ehcache/spi/serialization/DefaultSerializationProvider.java:54-62 | each provider copies its half of the configuration; without a configuration both maps are empty |
| Serialization.Route | impl/src/main/java/org/ehcache/spi/serialization/DefaultSerializationProvider.java:65-80 | the persistent provider is chosen exactly when a persistence space identifier is among the configurations |
| Serialization.DefaultSerializationProvider.CreateSerializer | impl/src/main/java/org/ehcache/spi/serialization/DefaultSerializationProvider.java:64-80 | key and value serializer creation is answered by the provider `Route` picks, with that provider's registrations |
| Serialization.Matching | impl/src/main/java/org/ehcache/spi/serialization/DefaultSerializationProvider.java:220-222 | the configurations `find` considers are exactly the serializer configurations of the requested type |
| Serialization.MatchingNone | impl/src/main/java/org/ehcache/spi/serialization/DefaultSerializationProvider.java:217-231 | no configuration matches exactly when no position holds a serializer configuration of the type |
| Serialization.MatchingTwice | impl/src/main/java/org/ehcache/spi/serialization/DefaultSerializationProvider.java:217-231 | two or more configurations match exactly when two distinct positions hold serializer configurations of the type, even equal ones |
| Serialization.MatchingSingle | impl/src/main/java/org/ehcache/spi/serialization/DefaultSerializationProvider.java:217-231 | exactly one configuration matches when some position holds one of the type and no two positions do, and then it is the configuration at that position |
| Serialization.Find | impl/src/main/java/org/ehcache/spi/serialization/DefaultSerializationProvider.java:217-231 | null when no configuration has the type, the single one when exactly one does, and `IllegalArgumentException` when two or more do |
| Serialization.ClassFor | impl/src/main/java/org/ehcache/spi/serialization/DefaultSerializationProvider.java:172-190 | a configured class wins; else the registration for exactly the type; else the first registration in insertion order whose key the type is assignable to; `UnsupportedTypeException` exactly when none is |
| Serialization.FirstAssignable | impl/src/main/java/org/ehcache/spi/serialization/DefaultSerializationProvider.java:184-188 | the scan stops at the first assignable registration in insertion order, and every earlier one is not assignable |
| Serialization.Provider.GetClassFor | impl/src/main/java/org/ehcache/spi/serialization/DefaultSerializationProvider.java:172-190 | the scanning implementation returns exactly what `ClassFor` specifies |
| Serialization.Get | impl/src/main/java/org/ehcache/spi/serialization/DefaultSerializationProvider.java:180 | `serializers.get` is null exactly when no registration has the key, and otherwise returns a registered serializer for the key |
| Serialization.Created | impl/src/main/java/org/ehcache/spi/serialization/DefaultSerializationProvider.java:158-168 | serializer creation fails with `IllegalArgumentException` exactly when the requested type has two or more configurations; a created serializer serves the requested class; only a persistent provider gives it a persistence context |
| Serialization.Provider.CreateSerializer | impl/src/main/java/org/ehcache/spi/serialization/DefaultSerializationProvider.java:126-139 | find, then getClassFor, then construction: the provider returns exactly what `Created` specifies, and a persistent provider that was never started fails on its missing persistence service |
| Serialization.SerializerIgnoresOtherType | impl/src/main/java/org/ehcache/spi/serialization/DefaultSerializationProvider.java:158-168 | a key serializer depends only on the KEY configuration and a value serializer only on the VALUE configuration |
| Serialization.StartRegistersDefault | impl/src/main/java/org/ehcache/spi/serialization/DefaultSerializationProvider.java:110-115 | `start` keeps a user `Serializable` registration, or adds the default otherwise; other keys' registrations and the existing order are unchanged, and keys stay distinct |
| Serialization.StartIdempotent | impl/src/main/java/org/ehcache/spi/serialization/DefaultSerializationProvider.java:141-147 | starting again changes nothing |
| Serialization.Provider.Start | impl/src/main/java/org/ehcache/spi/serialization/DefaultSerializationProvider.java:141-147 | the map becomes the put-if-absent of the provider's default, and a persistent provider binds the persistence service |
| Serialization.DefaultSerializationProvider.Start | impl/src/main/java/org/ehcache/spi/serialization/DefaultSerializationProvider.java:82-86 | the transient provider gains `CompactJavaSerializer` and the persistent one `CompactPersistentJavaSerializer` for `Serializable`, each only if absent |
| Serialization.GetAppend | impl/src/main/java/org/ehcache/spi/serialization/DefaultSerializationProvider.java:113 | appending a registration for a new key changes no earlier lookup |
| HeapStore.CopiedOnHeapValueHolder.Create | impl/src/main/java/org/ehcache/internal/store/heap/CopiedOnHeapValueHolder.java:29-39 | a null value fails with "null value" first, then a null copier with "null copier"; otherwise the holder has the given id and times and no hits, stores the write copy of the value, and hands out the read copy of that write copy |
| HeapStore.CopiedOnHeapValueHolder.CreateWithoutId | impl/src/main/java/org/ehcache/internal/store/heap/CopiedOnHeapValueHolder.java:51-53 | as `Create`, with id -1 |
| HeapStore.CopiedOnHeapValueHolder.CreateWithoutExpiry | impl/src/main/java/org/ehcache/internal/store/heap/CopiedOnHeapValueHolder.java:47-49 | as `Create`, with id -1 and expiration time `NO_EXPIRE` |
| HeapStore.CopiedOnHeapValueHolder.CopyOf | impl/src/main/java/org/ehcache/internal/store/heap/CopiedOnHeapValueHolder.java:41-45 | the copy shows the source's id, creation time, expiration time, last access time and hits, stores the write copy of the source's value, and hands out the read copy of it |
| HeapStore.CopiedOnHeapValueHolder.constructor | impl/src/main/java/org/ehcache/internal/store/heap/CopiedOnHeapValueHolder.java:29-39 | the holder keeps its copier and the write copy of the value it was given, with the given id and times |
| HeapStore.CopiedOnHeapValueHolder.Value | impl/src/main/java/org/ehcache/internal/store/heap/CopiedOnHeapValueHolder.java:55-58 | `value()` is the read copy of the write copy of the value the holder was created with |

## Left out

- The `ServiceLocator` class itself is not part of this model. The locator's behaviour is the
  one its test class asserts, together with the choices stated above.
- Spi.ServiceLocator.StartAllServices: instances are started in index order, not in
  dependency order. A service that reads another service inside its own `start` is not
  modelled.
- Spi.ServiceLocator.Rollback: an exception from a rollback `stop` during a failed start is
  dropped.
- Reflection is out: class-hierarchy walking and the `@ServiceDependencies` and
  `@SupplementaryService` annotations. They are replaced by explicit `ServiceType` data.
- `ServiceLoader` discovery and the thread context class loader check are out. Discovery
  is an explicit catalog.
- Mockito mocks, spies and `verify` are out. They are replaced by the event log.
- Adding the same instance twice and the locator's `running` flag are out.
- Serializer construction by reflection (`getConstructor`, `newInstance`, exception
  wrapping) and logging are out. A created serializer is described by its class, its
  payload class and its persistence context.
- `LocalPersistenceService.createPersistenceContextWithin` (file I/O) is out. A persistent
  serializer records the space and the context name it would be created in.
- Serialization.Route: `findSingletonAmongst` is not part of this model. The model
  routes to the persistent provider when at least one persistence space identifier is
  present, and uses the first one. What the Java code does with two or more identifiers is
  not modelled.
- The providers' `stop` does nothing and is not modelled. The class loader argument is not
  modelled either, because nothing here depends on it.
- A configured map is copied in its iteration order. For a Java `HashMap` that order is
  unspecified, and the model takes it as given.
- `SoftLockValueCombinedSerializer` is out. It only delegates to code that is not part of
  this model.
- HeapStore.CopiedOnHeapValueHolder.Create: `OnHeapValueHolder` and `Store.ValueHolder`
  are not part of this model. The value -1 of `NO_EXPIRE` is assumed. So is a new holder's
  last access time being its creation time, with zero hits. Time unit conversion is the
  identity.
- The `Copier` implementations are out. Copying is two uninterpreted functions, so
  reference identity ("never the stored reference itself") cannot be stated.
