/**
 * The service locator: a registry that binds service types to service instances,
 * discovers default implementations, loads declared dependencies, and drives the
 * start/stop lifecycle of every registered instance.
 *
 * Java reflection is replaced by explicit data: each instance carries a `ServiceType`
 * listing the service types it can be looked up by, whether it is a supplementary
 * service, and the service types it depends on. Each call of `start` or `stop` on a
 * service is recorded in an event log, and whether it throws is an input of the
 * lifecycle methods.
 */
module Spi {
  import opened Results

  /** A Java class or interface, as an opaque token. */
  type TypeToken = nat

  /**
   * What the locator reads from a service's class: the concrete class `name`,
   * the service interfaces and superclasses it can also be found by, the
   * supplementary-service marker, and the declared dependencies, in declaration order.
   */
  datatype ServiceType = ServiceType(
    name: TypeToken,
    supertypes: seq<TypeToken>,
    supplementary: bool,
    dependencies: seq<TypeToken>)

  /** One key of the type index: `id` can be looked up as `key`. */
  datatype Entry = Entry(key: TypeToken, id: nat)

  /** The lifecycle of one registered instance. */
  datatype Lifecycle = Created | Started | StartFailed | Stopped

  /** A call of `start` or `stop` on the instance with identity `id`. */
  datatype Event = Start(id: nat) | Stop(id: nat)

  /** The exceptions the locator lets escape. */
  datatype Failure =
    | StartFailure(id: nat)               // thrown by the `start` of instance `id`
    | StopFailure(id: nat)                // thrown by the `stop` of instance `id`
    | UnresolvedDependency(key: TypeToken) // no instance and no default for `key`

  /** How many times the build record says class `name` has been built. */
  function TimesBuilt(constructed: map<TypeToken, nat>, name: TypeToken): nat
  {
    if name in constructed then constructed[name] else 0
  }

  /** The keys an instance of `t` is indexed under: a supplementary service only by its own class. */
  function Keys(t: ServiceType): (ks: seq<TypeToken>)
    ensures t.name in ks
    ensures t.supplementary ==> ks == [t.name]
    ensures !t.supplementary ==> forall s :: s in t.supertypes ==> s in ks
  {
    if t.supplementary then [t.name] else [t.name] + t.supertypes
  }

  /** An instance of `t` is indexed under `s` exactly when `s` is its class, or one of its supertypes and `t` is not supplementary. */
  lemma KeysSpec(t: ServiceType, s: TypeToken)
    ensures s in Keys(t) <==> s == t.name || (!t.supplementary && s in t.supertypes)
  {
  }

  /** The index entries that register instance `id` under each of `keys`. */
  function Entries(keys: seq<TypeToken>, id: nat): (es: seq<Entry>)
    ensures |es| == |keys|
    ensures forall i :: 0 <= i < |keys| ==> es[i] == Entry(keys[i], id)
  {
    seq(|keys|, i requires 0 <= i < |keys| => Entry(keys[i], id))
  }

  /** The identities referenced by the index, in index order (with repetitions). */
  function Ids(index: seq<Entry>): (ids: seq<nat>)
    ensures |ids| == |index|
    ensures forall i :: 0 <= i < |index| ==> ids[i] == index[i].id
  {
    seq(|index|, i requires 0 <= i < |index| => index[i].id)
  }

  // ---------------------------------------------------------------------------
  // Lookup in the type index
  // ---------------------------------------------------------------------------

  /** The position of the first entry registered under `key`, or `|index|` if there is none. */
  function FirstKey(index: seq<Entry>, key: TypeToken): (k: nat)
    ensures k <= |index|
    ensures forall j :: 0 <= j < k ==> index[j].key != key
    ensures k < |index| ==> index[k].key == key
  {
    if index == [] then 0
    else if index[|index| - 1].key != key then
      var k := FirstKey(index[..|index| - 1], key);
      if k < |index| - 1 then k else |index|
    else
      var k := FirstKey(index[..|index| - 1], key);
      if k < |index| - 1 then k else |index| - 1
  }

  /**
   * `getService`'s index lookup: the instance registered first under `key`, if any.
   * Several non-supplementary instances may share a key; the first registered wins.
   */
  function Lookup(index: seq<Entry>, key: TypeToken): Option<nat>
  {
    var k := FirstKey(index, key);
    if k < |index| then Some(index[k].id) else None
  }

  /** A lookup finds an instance exactly when some entry carries the key, and the first such entry wins. */
  lemma LookupSpec(index: seq<Entry>, key: TypeToken)
    ensures Lookup(index, key).None? <==> forall j :: 0 <= j < |index| ==> index[j].key != key
    ensures Lookup(index, key).Some? ==>
      exists k :: 0 <= k < |index| && index[k] == Entry(key, Lookup(index, key).value) &&
        forall j :: 0 <= j < k ==> index[j].key != key
  {
    var k := FirstKey(index, key);
    if k < |index| {
      assert index[k] == Entry(key, index[k].id);
    }
  }

  /** Looking up in a concatenation consults the second part only when the first has no match. */
  lemma LookupAppend(a: seq<Entry>, b: seq<Entry>, key: TypeToken)
    ensures Lookup(a + b, key) == if Lookup(a, key).Some? then Lookup(a, key) else Lookup(b, key)
  {
    var ka, kb := FirstKey(a, key), FirstKey(b, key);
    forall j | 0 <= j < |a| ensures (a + b)[j] == a[j] { }
    forall j | 0 <= j < |b| ensures (a + b)[|a| + j] == b[j] { }
    if ka < |a| {
      assert forall j :: 0 <= j < ka ==> (a + b)[j].key != key;
      assert (a + b)[ka].key == key;
    } else {
      assert forall j :: 0 <= j < |a| + kb ==> (a + b)[j].key != key by {
        forall j | 0 <= j < |a| + kb ensures (a + b)[j].key != key {
          if j >= |a| { assert (a + b)[j] == b[j - |a|]; }
        }
      }
      if kb < |b| {
        assert (a + b)[|a| + kb].key == key;
      }
    }
  }

  /** A lookup in the entries of one instance finds it exactly under the keys it was given. */
  lemma LookupEntries(keys: seq<TypeToken>, id: nat, key: TypeToken)
    ensures Lookup(Entries(keys, id), key) == if key in keys then Some(id) else None
  {
    var es := Entries(keys, id);
    var k := FirstKey(es, key);
    if key in keys {
      var i :| 0 <= i < |keys| && keys[i] == key;
      assert es[i].key == key;
    }
  }

  /**
   * Registering instance `id` of type `t`: a key that already had an instance keeps it, an
   * unmatched key becomes matched by `id` exactly when `t` is indexed under it.
   */
  lemma {:induction false} RegisterLookup(index: seq<Entry>, t: ServiceType, id: nat, key: TypeToken)
    ensures Lookup(index + Entries(Keys(t), id), key) ==
      if Lookup(index, key).Some? then Lookup(index, key)
      else if key in Keys(t) then Some(id)
      else None
  {
    LookupAppend(index, Entries(Keys(t), id), key);
    LookupEntries(Keys(t), id, key);
  }

  /** A supplementary service never answers a lookup by any type other than its own class. */
  lemma {:induction false} SupplementaryHidden(index: seq<Entry>, t: ServiceType, id: nat, key: TypeToken)
    requires t.supplementary && key != t.name
    ensures Lookup(index + Entries(Keys(t), id), key) == Lookup(index, key)
  {
    RegisterLookup(index, t, id, key);
  }

  /**
   * The service a lookup by `key` finds once `services` have been registered in order: none
   * exactly when no service is indexed under `key`, otherwise the first one that is.
   */
  function FirstProvider(services: seq<ServiceType>, key: TypeToken): Option<nat>
  {
    if services == [] then None
    else
      var n := |services| - 1;
      var r := FirstProvider(services[..n], key);
      if r.Some? then r else if key in Keys(services[n]) then Some(n) else None
  }

  /** A lookup after registering `services` finds nothing exactly when none of them is indexed under `key`. */
  lemma {:induction false} FirstProviderNone(services: seq<ServiceType>, key: TypeToken)
    ensures FirstProvider(services, key).None? <==> forall i :: 0 <= i < |services| ==> key !in Keys(services[i])
  {
    if services != [] {
      var n := |services| - 1;
      var init := services[..n];
      FirstProviderNone(init, key);
      if FirstProvider(services, key).Some? {
        if FirstProvider(init, key).Some? {
          var j :| 0 <= j < n && key in Keys(init[j]);
          assert services[j] == init[j];
        }
      } else {
        forall i | 0 <= i < |services|
          ensures key !in Keys(services[i])
        {
          if i < n {
            assert services[i] == init[i];
          }
        }
      }
    }
  }

  /** A lookup after registering `services` that finds one finds the first service indexed under `key`. */
  lemma {:induction false} FirstProviderFirst(services: seq<ServiceType>, key: TypeToken)
    ensures FirstProvider(services, key).Some? ==>
      var i := FirstProvider(services, key).value;
      i < |services| && key in Keys(services[i]) && forall j :: 0 <= j < i ==> key !in Keys(services[j])
  {
    if services != [] {
      var n := |services| - 1;
      FirstProviderFirst(services[..n], key);
      FirstProviderNone(services[..n], key);
      assert forall j :: 0 <= j < n ==> services[..n][j] == services[j];
    }
  }

  // ---------------------------------------------------------------------------
  // Orders, first failures and counts of events
  // ---------------------------------------------------------------------------

  /** Each identity is below every later one. */
  predicate Ascending(s: seq<nat>)
  {
    forall a, b :: 0 <= a < b < |s| ==> s[a] < s[b]
  }

  /** No identity is above a later one. */
  predicate NonDecreasing(s: seq<nat>)
  {
    forall a, b :: 0 <= a < b < |s| ==> s[a] <= s[b]
  }

  /** No identity occurs twice. */
  predicate Distinct(s: seq<nat>)
  {
    forall i :: 0 <= i < |s| ==> s[i] !in s[..i]
  }

  /**
   * The identities of `ids` that are in `ready`, each once, in the order of their first
   * occurrence: the order in which a pass over the index reaches each distinct instance.
   */
  function Order(ids: seq<nat>, ready: set<nat>): (r: seq<nat>)
    ensures Distinct(r)
    ensures forall x :: x in r <==> x in ids && x in ready
  {
    if ids == [] then []
    else
      var r0 := Order(ids[..|ids| - 1], ready);
      var x := ids[|ids| - 1];
      assert forall y :: y in ids <==> y in ids[..|ids| - 1] || y == x;
      if x in ready && x !in r0 then r0 + [x] else r0
  }

  /** The order over a prefix of the index is a prefix of the order over the whole index. */
  lemma {:induction false} OrderPrefix(ids: seq<nat>, k: nat, ready: set<nat>)
    requires k <= |ids|
    ensures |Order(ids[..k], ready)| <= |Order(ids, ready)|
    ensures Order(ids[..k], ready) == Order(ids, ready)[..|Order(ids[..k], ready)|]
  {
    if k < |ids| {
      OrderPrefix(ids[..|ids| - 1], k, ready);
      assert ids[..|ids| - 1][..k] == ids[..k];
    } else {
      assert ids[..k] == ids;
    }
  }

  /** The position of the first element of `s` that is in `failing`, or `|s|` if there is none. */
  function FirstIn(s: seq<nat>, failing: set<nat>): (n: nat)
    ensures n <= |s|
    ensures forall i :: 0 <= i < n ==> s[i] !in failing
    ensures n < |s| ==> s[n] in failing
  {
    if s == [] then 0
    else
      var n := FirstIn(s[..|s| - 1], failing);
      if n < |s| - 1 then n
      else if s[|s| - 1] in failing then |s| - 1
      else |s|
  }

  /** The element whose failure is reported: the first in `s` that fails. */
  function FirstFailing(s: seq<nat>, failing: set<nat>): Option<nat>
  {
    var n := FirstIn(s, failing);
    if n < |s| then Some(s[n]) else None
  }

  /** How often `e` occurs in `log`. */
  function Count(log: seq<Event>, e: Event): nat
  {
    if log == [] then 0
    else Count(log[..|log| - 1], e) + (if log[|log| - 1] == e then 1 else 0)
  }

  lemma CountSnoc(log: seq<Event>, e: Event, x: Event)
    ensures Count(log + [e], x) == Count(log, x) + (if e == x then 1 else 0)
  {
    assert (log + [e])[..|log|] == log;
  }

  lemma {:induction false} CountAppend(a: seq<Event>, b: seq<Event>, x: Event)
    ensures Count(a + b, x) == Count(a, x) + Count(b, x)
  {
    if b != [] {
      var b0 := b[..|b| - 1];
      assert a + b == (a + b0) + [b[|b| - 1]];
      CountSnoc(a + b0, b[|b| - 1], x);
      CountAppend(a, b0, x);
    } else {
      assert a + b == a;
    }
  }

  /** An event that does not occur is counted zero times. */
  lemma {:induction false} CountAbsent(log: seq<Event>, x: Event)
    requires x !in log
    ensures Count(log, x) == 0
  {
    if log != [] {
      CountAbsent(log[..|log| - 1], x);
    }
  }

  /** The `start` calls made, in order, on the instances `s`. */
  function StartEvents(s: seq<nat>): (es: seq<Event>)
    ensures |es| == |s|
    ensures forall i :: 0 <= i < |s| ==> es[i] == Start(s[i])
  {
    seq(|s|, i requires 0 <= i < |s| => Start(s[i]))
  }

  /** The `stop` calls made, in order, on the instances `s`. */
  function StopEvents(s: seq<nat>): (es: seq<Event>)
    ensures |es| == |s|
    ensures forall i :: 0 <= i < |s| ==> es[i] == Stop(s[i])
  {
    seq(|s|, i requires 0 <= i < |s| => Stop(s[i]))
  }

  /** The `stop` calls of a rollback: the instances `s` in reverse order. */
  function RollbackEvents(s: seq<nat>): (es: seq<Event>)
    ensures |es| == |s|
    ensures forall i :: 0 <= i < |s| ==> es[i] == Stop(s[|s| - 1 - i])
  {
    seq(|s|, i requires 0 <= i < |s| => Stop(s[|s| - 1 - i]))
  }

  /** Each instance of a duplicate-free list is started once by `StartEvents` and never stopped. */
  lemma {:induction false} CountStartEvents(s: seq<nat>, x: nat)
    requires Distinct(s)
    ensures Count(StartEvents(s), Start(x)) == if x in s then 1 else 0
    ensures Count(StartEvents(s), Stop(x)) == 0
  {
    if s != [] {
      var s0 := s[..|s| - 1];
      assert StartEvents(s) == StartEvents(s0) + [Start(s[|s| - 1])];
      CountSnoc(StartEvents(s0), Start(s[|s| - 1]), Start(x));
      CountSnoc(StartEvents(s0), Start(s[|s| - 1]), Stop(x));
      CountStartEvents(s0, x);
      assert x in s <==> x in s0 || x == s[|s| - 1];
      assert s[|s| - 1] !in s0;
    }
  }

  /** Each instance of a duplicate-free list is stopped once by `StopEvents` and never started. */
  lemma {:induction false} CountStopEvents(s: seq<nat>, x: nat)
    requires Distinct(s)
    ensures Count(StopEvents(s), Stop(x)) == if x in s then 1 else 0
    ensures Count(StopEvents(s), Start(x)) == 0
  {
    if s != [] {
      var s0 := s[..|s| - 1];
      assert StopEvents(s) == StopEvents(s0) + [Stop(s[|s| - 1])];
      CountSnoc(StopEvents(s0), Stop(s[|s| - 1]), Stop(x));
      CountSnoc(StopEvents(s0), Stop(s[|s| - 1]), Start(x));
      CountStopEvents(s0, x);
      assert x in s <==> x in s0 || x == s[|s| - 1];
      assert s[|s| - 1] !in s0;
    }
  }

  /** A rollback stops each instance of a duplicate-free list once and starts none. */
  lemma {:induction false} CountRollbackEvents(s: seq<nat>, x: nat)
    requires Distinct(s)
    ensures Count(RollbackEvents(s), Stop(x)) == if x in s then 1 else 0
    ensures Count(RollbackEvents(s), Start(x)) == 0
  {
    if s != [] {
      var s1 := s[1..];
      assert RollbackEvents(s) == RollbackEvents(s1) + [Stop(s[0])];
      CountSnoc(RollbackEvents(s1), Stop(s[0]), Stop(x));
      CountSnoc(RollbackEvents(s1), Stop(s[0]), Start(x));
      assert Distinct(s1);
      CountRollbackEvents(s1, x);
      assert x in s <==> x in s1 || x == s[0];
      assert s[0] !in s1;
    }
  }

  /**
   * The calls made by a start pass over `plan` that fails at `plan[n]`: every earlier
   * instance is started and then stopped once, the failing one is started and never
   * stopped, and every later one is neither started nor stopped.
   */
  lemma {:induction false} RollbackCounts(plan: seq<nat>, n: nat, x: nat)
    requires Distinct(plan) && n < |plan|
    ensures var calls := StartEvents(plan[..n + 1]) + RollbackEvents(plan[..n]);
      && Count(calls, Start(x)) == (if x in plan[..n + 1] then 1 else 0)
      && Count(calls, Stop(x)) == (if x in plan[..n] then 1 else 0)
  {
    assert Distinct(plan[..n + 1]);
    assert Distinct(plan[..n]);
    CountAppend(StartEvents(plan[..n + 1]), RollbackEvents(plan[..n]), Start(x));
    CountAppend(StartEvents(plan[..n + 1]), RollbackEvents(plan[..n]), Stop(x));
    CountStartEvents(plan[..n + 1], x);
    CountRollbackEvents(plan[..n], x);
  }

  /** Every instance whose state is `Created`. */
  function CreatedIds(state: seq<Lifecycle>): (r: set<nat>)
    ensures forall id: nat :: id in r <==> id < |state| && state[id] == Created
  {
    set id | 0 <= id < |state| && state[id] == Created
  }

  /** Every instance whose state is `Started`. */
  function StartedIds(state: seq<Lifecycle>): (r: set<nat>)
    ensures forall id: nat :: id in r <==> id < |state| && state[id] == Started
  {
    set id | 0 <= id < |state| && state[id] == Started
  }

  /** `state` with every instance of `ids` moved to `to`. */
  function Mark(state: seq<Lifecycle>, ids: seq<nat>, to: Lifecycle): (r: seq<Lifecycle>)
    ensures |r| == |state|
    ensures forall id :: 0 <= id < |state| ==> r[id] == if id in ids then to else state[id]
  {
    seq(|state|, id requires 0 <= id < |state| => if id in ids then to else state[id])
  }

  /** The lifecycle states of `n` freshly registered instances. */
  function Fresh(n: nat): (r: seq<Lifecycle>)
    ensures |r| == n && forall i :: 0 <= i < n ==> r[i] == Created
  {
    seq(n, _ => Created)
  }

  /** The states `state0` followed by those of the instances registered after it, `n` in all. */
  function Registered(state0: seq<Lifecycle>, n: nat): (r: seq<Lifecycle>)
    requires |state0| <= n
    ensures |r| == n && r[..|state0|] == state0
    ensures forall i :: |state0| <= i < n ==> r[i] == Created
  {
    state0 + Fresh(n - |state0|)
  }

  /** All dependencies declared by `ts`, in registration and declaration order. */
  function AllDependencies(ts: seq<ServiceType>): (ds: seq<TypeToken>)
    ensures forall i, d :: 0 <= i < |ts| && d in ts[i].dependencies ==> d in ds
    ensures forall d :: d in ds ==> exists i :: 0 <= i < |ts| && d in ts[i].dependencies
  {
    if ts == [] then []
    else AllDependencies(ts[..|ts| - 1]) + ts[|ts| - 1].dependencies
  }

  /** The keys of the discovery catalog that no registered instance answers yet. */
  function Unresolved(catalog: map<TypeToken, ServiceType>, index: seq<Entry>): set<TypeToken>
  {
    set key | key in catalog && Lookup(index, key).None?
  }

  lemma {:induction false} SubsetCard<T>(a: set<T>, b: set<T>)
    requires a <= b
    ensures |a| <= |b|
  {
    if a != {} {
      var x :| x in a;
      SubsetCard(a - {x}, b - {x});
    }
  }

  /**
   * The discovery catalog maps a service type to the class of its default implementation.
   * A default must be indexed under the type it is the default for, and one class has one
   * description wherever it appears.
   */
  ghost predicate CatalogOk(catalog: map<TypeToken, ServiceType>)
  {
    && (forall key :: key in catalog ==> key in Keys(catalog[key]))
    && (forall k1, k2 :: k1 in catalog && k2 in catalog && catalog[k1].name == catalog[k2].name ==>
          catalog[k1] == catalog[k2])
  }

  /** Every entry names a registered instance under a key its type has. */
  ghost predicate IndexOk(instances: seq<ServiceType>, index: seq<Entry>)
  {
    && (forall k :: 0 <= k < |index| ==>
          index[k].id < |instances| && index[k].key in Keys(instances[index[k].id]))
    && (forall id :: 0 <= id < |instances| ==> id in Ids(index))
  }

  /**
   * Every call names a registered instance; an instance was started once unless it is still
   * `Created`, and stopped once exactly when it is `Stopped`.
   */
  ghost predicate CountsOk(state: seq<Lifecycle>, log: seq<Event>)
  {
    && (forall e :: e in log ==> e.id < |state|)
    && (forall id :: 0 <= id < |state| ==>
          && Count(log, Start(id)) == (if state[id] == Created then 0 else 1)
          && Count(log, Stop(id)) == (if state[id] == Stopped then 1 else 0))
  }

  /** Each default class was built at most once, and once built it answers every key it is the default for. */
  ghost predicate BuildsOk(catalog: map<TypeToken, ServiceType>, index: seq<Entry>, constructed: map<TypeToken, nat>)
  {
    && (forall name :: name in constructed ==> constructed[name] == 1)
    && (forall key :: key in catalog && catalog[key].name in constructed ==> Lookup(index, key).Some?)
  }

  lemma RegisterKeepsIndexOk(instances: seq<ServiceType>, index: seq<Entry>, t: ServiceType)
    requires IndexOk(instances, index)
    ensures IndexOk(instances + [t], index + Entries(Keys(t), |instances|))
  {
    var instances', index' := instances + [t], index + Entries(Keys(t), |instances|);
    forall k | 0 <= k < |index'|
      ensures index'[k].id < |instances'| && index'[k].key in Keys(instances'[index'[k].id])
    {
      if k < |index| {
        assert index'[k] == index[k];
        assert instances'[index[k].id] == instances[index[k].id];
      } else {
        assert index'[k] == Entry(Keys(t)[k - |index|], |instances|);
      }
    }
    forall id | 0 <= id < |instances'| ensures id in Ids(index') {
      if id < |instances| {
        assert id in Ids(index);
        var k :| 0 <= k < |Ids(index)| && Ids(index)[k] == id;
        assert Ids(index')[k] == id;
      } else {
        assert Ids(index')[|index|] == id;
      }
    }
  }

  lemma RegisterKeepsCountsOk(state: seq<Lifecycle>, log: seq<Event>)
    requires CountsOk(state, log)
    ensures CountsOk(state + [Created], log)
  {
    CountAbsent(log, Start(|state|));
    CountAbsent(log, Stop(|state|));
  }

  /** Adding entries keeps every successful lookup. */
  lemma AppendKeepsBuildsOk(catalog: map<TypeToken, ServiceType>, index: seq<Entry>, more: seq<Entry>,
                            constructed: map<TypeToken, nat>)
    requires BuildsOk(catalog, index, constructed)
    ensures BuildsOk(catalog, index + more, constructed)
  {
    forall key | key in catalog && catalog[key].name in constructed
      ensures Lookup(index + more, key).Some?
    {
      LookupAppend(index, more, key);
    }
  }

  /** The default of a key nothing answers has never been built. */
  lemma NeverBuilt(catalog: map<TypeToken, ServiceType>, index: seq<Entry>, constructed: map<TypeToken, nat>,
                   key: TypeToken)
    requires BuildsOk(catalog, index, constructed) && key in catalog && Lookup(index, key).None?
    ensures catalog[key].name !in constructed && TimesBuilt(constructed, catalog[key].name) == 0
  {
  }

  /** Counting the first construction of the default for `key` records it as built once and keeps `BuildsOk`. */
  lemma CountKeepsBuildsOk(catalog: map<TypeToken, ServiceType>, index: seq<Entry>,
                           constructed: map<TypeToken, nat>, key: TypeToken)
    requires CatalogOk(catalog) && BuildsOk(catalog, index, constructed) && key in catalog
    requires catalog[key].name !in constructed
    requires forall k :: k in Keys(catalog[key]) ==> Lookup(index, k).Some?
    ensures var name := catalog[key].name;
      && constructed[name := TimesBuilt(constructed, name) + 1] == constructed[name := 1]
      && BuildsOk(catalog, index, constructed[name := TimesBuilt(constructed, name) + 1])
  {
    BuildKeepsBuildsOk(catalog, index, constructed, key);
  }

  /** Building the default for `key`, once all its keys find an instance, keeps the build record sound. */
  lemma BuildKeepsBuildsOk(catalog: map<TypeToken, ServiceType>, index: seq<Entry>,
                           constructed: map<TypeToken, nat>, key: TypeToken)
    requires CatalogOk(catalog) && BuildsOk(catalog, index, constructed) && key in catalog
    requires forall k :: k in Keys(catalog[key]) ==> Lookup(index, k).Some?
    ensures BuildsOk(catalog, index, constructed[catalog[key].name := 1])
  {
    forall k | k in catalog && catalog[k].name in constructed[catalog[key].name := 1]
      ensures Lookup(index, k).Some?
    {
      if catalog[k].name == catalog[key].name {
        assert catalog[k] == catalog[key];
      }
    }
  }

  /** A key that gets an instance leaves the unresolved defaults, and no key joins them. */
  lemma UnresolvedShrinks(catalog: map<TypeToken, ServiceType>, index0: seq<Entry>, index: seq<Entry>,
                          key: TypeToken)
    requires Extends(index0, index) && key in catalog
    requires Lookup(index0, key).None? && Lookup(index, key).Some?
    ensures key in Unresolved(catalog, index0)
    ensures Unresolved(catalog, index) <= Unresolved(catalog, index0) - {key}
    ensures |Unresolved(catalog, index)| < |Unresolved(catalog, index0)|
  {
    SubsetCard(Unresolved(catalog, index), Unresolved(catalog, index0) - {key});
  }

  /** Registering one more of `services` grows the registered prefix by it, the index by its entries and the states by one `Created`. */
  lemma PrefixSnoc(services: seq<ServiceType>, i: nat)
    requires i < |services|
    ensures services[..i + 1] == services[..i] + [services[i]]
    ensures Fresh(i + 1) == Fresh(i) + [Created]
    ensures NewEntries(services[..i + 1], 0) == NewEntries(services[..i], 0) + Entries(Keys(services[i]), i)
  {
    assert services[..i + 1] == services[..i] + [services[i]];
    assert services[..i + 1][..i] == services[..i];
    assert Fresh(i + 1) == Fresh(i) + [Created];
    NewEntriesSnoc(services[..i], services[i], 0);
  }

  /** Recording a call on `id` and moving it to state `to` keeps the call counts in step with the states. */
  lemma StepKeepsCountsOk(state: seq<Lifecycle>, log: seq<Event>, e: Event, to: Lifecycle)
    requires CountsOk(state, log) && e.id < |state|
    requires e.Start? ==> state[e.id] == Created && to != Created && to != Stopped
    requires e.Stop? ==> state[e.id] == Started && to == Stopped
    ensures CountsOk(state[e.id := to], log + [e])
  {
    forall id | 0 <= id < |state|
      ensures Count(log + [e], Start(id)) == (if state[e.id := to][id] == Created then 0 else 1)
      ensures Count(log + [e], Stop(id)) == (if state[e.id := to][id] == Stopped then 1 else 0)
    {
      CountSnoc(log, e, Start(id));
      CountSnoc(log, e, Stop(id));
    }
  }

  /** Every lookup that succeeds in `index0` finds the same instance in `index`. */
  ghost predicate Extends(index0: seq<Entry>, index: seq<Entry>)
  {
    forall k :: Lookup(index0, k).Some? ==> Lookup(index, k) == Lookup(index0, k)
  }

  lemma ExtendsTrans(a: seq<Entry>, b: seq<Entry>, c: seq<Entry>)
    requires Extends(a, b) && Extends(b, c)
    ensures Extends(a, c)
  {
  }

  /** Every key of `keys` finds an instance in `index` or is still waiting in `pending`. */
  ghost predicate Covered(keys: seq<TypeToken>, index: seq<Entry>, pending: seq<TypeToken>)
  {
    forall key :: key in keys ==> Lookup(index, key).Some? || key in pending
  }

  /** The dependencies of every instance from `from` on are covered. */
  ghost predicate DepsCovered(instances: seq<ServiceType>, from: nat, index: seq<Entry>, pending: seq<TypeToken>)
  {
    forall i :: from <= i < |instances| ==> Covered(instances[i].dependencies, index, pending)
  }

  /**
   * Once the dependencies of all of `before` are covered, and those of the instances added
   * after them, the dependencies of every instance are covered.
   */
  lemma AllDependenciesCovered(before: seq<ServiceType>, instances: seq<ServiceType>, index: seq<Entry>)
    requires |before| <= |instances| && instances[..|before|] == before
    requires Covered(AllDependencies(before), index, []) && DepsCovered(instances, |before|, index, [])
    ensures DepsCovered(instances, 0, index, [])
  {
    forall i | 0 <= i < |before|
      ensures Covered(instances[i].dependencies, index, [])
    {
      assert instances[i] == before[i];
      forall d | d in before[i].dependencies ensures Lookup(index, d).Some? {
        assert d in AllDependencies(before);
      }
    }
  }

  /** Resolving the head of `pending`, which pushes `deps`, keeps `keys` covered. */
  lemma CoverStep(keys: seq<TypeToken>, index: seq<Entry>, index': seq<Entry>,
                  pending: seq<TypeToken>, deps: seq<TypeToken>)
    requires Covered(keys, index, pending) && pending != []
    requires Extends(index, index') && Lookup(index', pending[0]).Some?
    ensures Covered(keys, index', deps + pending[1..])
  {
    forall key | key in keys ensures Lookup(index', key).Some? || key in deps + pending[1..] {
      if Lookup(index, key).None? && key != pending[0] {
        assert key in pending[1..];
      }
    }
  }

  /**
   * Resolving the head of `pending` keeps the dependencies of the instances from `n0` on
   * covered: those of an instance `t` added for it (if any) are pushed onto the worklist.
   */
  lemma DepsStep(instances: seq<ServiceType>, t: ServiceType, n0: nat, index: seq<Entry>, index': seq<Entry>,
                 pending: seq<TypeToken>)
    requires DepsCovered(instances, n0, index, pending) && pending != []
    requires Extends(index, index') && Lookup(index', pending[0]).Some?
    ensures DepsCovered(instances, n0, index', pending[1..])
    ensures DepsCovered(instances + [t], n0, index', t.dependencies + pending[1..])
  {
    var instances' := instances + [t];
    forall i | n0 <= i < |instances'|
      ensures Covered(instances'[i].dependencies, index', t.dependencies + pending[1..])
    {
      if i < |instances| {
        assert instances'[i] == instances[i];
        CoverStep(instances[i].dependencies, index, index', pending, t.dependencies);
      }
    }
    forall i | n0 <= i < |instances|
      ensures Covered(instances[i].dependencies, index', pending[1..])
    {
      CoverStep(instances[i].dependencies, index, index', pending, []);
      assert [] + pending[1..] == pending[1..];
    }
  }

  /**
   * One step of dependency loading keeps the loop's bookkeeping: resolving the head of
   * `pending` (and, if a default was built for it, pushing that default's dependencies)
   * keeps every requested key and every new instance's dependencies covered.
   */
  lemma ResolveStep(pending0: seq<TypeToken>, pending: seq<TypeToken>, next: seq<TypeToken>, n0: nat,
                    instances0: seq<ServiceType>, index0: seq<Entry>,
                    instances1: seq<ServiceType>, index1: seq<Entry>,
                    instances: seq<ServiceType>, index: seq<Entry>, built: bool)
    requires pending != [] && n0 <= |instances1| && instances1[..n0] == instances0
    requires Extends(index0, index1) && Extends(index1, index) && Lookup(index, pending[0]).Some?
    requires Covered(pending0, index1, pending) && DepsCovered(instances1, n0, index1, pending)
    requires !built ==> instances == instances1 && next == pending[1..]
    requires built ==> |instances| == |instances1| + 1 && instances[..|instances1|] == instances1
                       && next == instances[|instances1|].dependencies + pending[1..]
    ensures n0 <= |instances| && instances[..n0] == instances0 && Extends(index0, index)
    ensures Covered(pending0, index, next) && DepsCovered(instances, n0, index, next)
  {
    ExtendsTrans(index0, index1, index);
    if built {
      var t := instances[|instances1|];
      assert instances == instances1 + [t];
      CoverStep(pending0, index1, index, pending, t.dependencies);
      DepsStep(instances1, t, n0, index1, index, pending);
      assert instances[..n0] == instances1[..n0];
    } else {
      CoverStep(pending0, index1, index, pending, []);
      DepsStep(instances, ServiceType(0, [], false, []), n0, index1, index, pending);
      assert [] + pending[1..] == pending[1..];
    }
  }

  /** Registering one more instance adds one more `Created` state after those of the instances before it. */
  lemma FreshStep(state0: seq<Lifecycle>, state1: seq<Lifecycle>, state: seq<Lifecycle>, m: nat, built: bool)
    requires |state0| <= m && state1 == Registered(state0, m)
    requires state == if built then state1 + [Created] else state1
    ensures state == Registered(state0, m + (if built then 1 else 0))
  {
    if built {
      assert Fresh(m + 1 - |state0|) == Fresh(m - |state0|) + [Created];
    }
  }

  /** The index entries that register the instances from `from` on, each under its keys, in order. */
  function NewEntries(instances: seq<ServiceType>, from: nat): seq<Entry>
    decreases |instances|
  {
    if |instances| <= from then []
    else
      var n := |instances| - 1;
      NewEntries(instances[..n], from) + Entries(Keys(instances[n]), n)
  }

  /** Registering one more instance appends its own entries. */
  lemma NewEntriesSnoc(instances: seq<ServiceType>, t: ServiceType, from: nat)
    requires from <= |instances|
    ensures NewEntries(instances + [t], from) == NewEntries(instances, from) + Entries(Keys(t), |instances|)
  {
    assert (instances + [t])[..|instances|] == instances;
  }

  /** The entries of a non-empty run of new instances end with those of the last one. */
  lemma NewEntriesUnfold(instances: seq<ServiceType>, from: nat)
    requires from < |instances|
    ensures NewEntries(instances, from) ==
      NewEntries(instances[..|instances| - 1], from) + Entries(Keys(instances[|instances| - 1]), |instances| - 1)
  {
  }

  /** Registering one more instance during a load extends the index by its entries. */
  lemma IndexSnoc(index0: seq<Entry>, from: nat, instances: seq<ServiceType>, t: ServiceType)
    requires from <= |instances|
    ensures index0 + NewEntries(instances, from) + Entries(Keys(t), |instances|) ==
      index0 + NewEntries(instances + [t], from)
  {
    NewEntriesSnoc(instances, t, from);
  }

  /** The index of the instances registered in order answers each key with the first of them indexed under it. */
  lemma {:induction false} RegisteredLookup(services: seq<ServiceType>, key: TypeToken)
    ensures Lookup(NewEntries(services, 0), key) == FirstProvider(services, key)
    decreases |services|
  {
    if services != [] {
      var n := |services| - 1;
      RegisteredLookup(services[..n], key);
      NewEntriesUnfold(services, 0);
      LookupAppend(NewEntries(services[..n], 0), Entries(Keys(services[n]), n), key);
      LookupEntries(Keys(services[n]), n, key);
    }
  }

  /** The index of the instances registered in order names them in ascending order of identity. */
  lemma {:induction false} RegisteredIdsAscending(services: seq<ServiceType>)
    ensures forall a :: 0 <= a < |NewEntries(services, 0)| ==> Ids(NewEntries(services, 0))[a] < |services|
    ensures NonDecreasing(Ids(NewEntries(services, 0)))
    decreases |services|
  {
    if services != [] {
      var n := |services| - 1;
      var front, last := NewEntries(services[..n], 0), Entries(Keys(services[n]), n);
      RegisteredIdsAscending(services[..n]);
      NewEntriesUnfold(services, 0);
      var ids := Ids(front + last);
      forall a | 0 <= a < |ids| ensures ids[a] == if a < |front| then Ids(front)[a] else n {
      }
      forall a, b | 0 <= a < b < |ids| ensures ids[a] <= ids[b] {
      }
    }
  }

  /** Passing over ascending identities, each taken once, gives a strictly ascending order. */
  lemma {:induction false} OrderAscending(ids: seq<nat>, ready: set<nat>)
    requires NonDecreasing(ids)
    ensures Ascending(Order(ids, ready))
    decreases |ids|
  {
    if ids != [] {
      var init, x := ids[..|ids| - 1], ids[|ids| - 1];
      var r0 := Order(init, ready);
      forall a, b | 0 <= a < b < |init| ensures init[a] <= init[b] {
        assert init[a] == ids[a] && init[b] == ids[b];
      }
      OrderAscending(init, ready);
      if x in ready && x !in r0 {
        forall y | y in r0 ensures y < x {
          assert y in init;
          var a :| 0 <= a < |init| && init[a] == y;
          assert ids[a] == y;
        }
        AscendingSnoc(r0, x);
        assert Order(ids, ready) == r0 + [x];
      } else {
        assert Order(ids, ready) == r0;
      }
    }
  }

  /** Appending an identity above all of a strictly ascending sequence keeps it strictly ascending. */
  lemma AscendingSnoc(r0: seq<nat>, x: nat)
    requires Ascending(r0) && forall y :: y in r0 ==> y < x
    ensures Ascending(r0 + [x])
  {
    var r := r0 + [x];
    forall a, b | 0 <= a < b < |r| ensures r[a] < r[b] {
      assert r[a] == r0[a] && r0[a] in r0;
    }
  }

  /**
   * The start and stop passes over the index of instances registered in order visit them
   * in registration order: an instance registered later is never visited earlier.
   */
  lemma RegistrationOrder(services: seq<ServiceType>, ready: set<nat>)
    ensures Ascending(Order(Ids(NewEntries(services, 0)), ready))
  {
    RegisteredIdsAscending(services);
    OrderAscending(Ids(NewEntries(services, 0)), ready);
  }

  /** A lookup in the entries of the instances from `from` on finds nothing exactly when none of them has the key. */
  lemma NewEntriesNone(instances: seq<ServiceType>, from: nat, key: TypeToken)
    requires from <= |instances|
    ensures Lookup(NewEntries(instances, from), key).None? <==>
      forall j :: from <= j < |instances| ==> key !in Keys(instances[j])
  {
    if Lookup(NewEntries(instances, from), key).None? {
      NewEntriesMiss(instances, from, key);
    } else {
      NewEntriesHit(instances, from, key);
    }
  }

  /** A lookup in the new entries finds nothing exactly when it finds nothing before the last instance's entries and the last instance lacks the key. */
  lemma NewEntriesLookupStep(instances: seq<ServiceType>, from: nat, key: TypeToken)
    requires from < |instances|
    ensures var n := |instances| - 1;
      Lookup(NewEntries(instances, from), key).None? <==>
        Lookup(NewEntries(instances[..n], from), key).None? && key !in Keys(instances[n])
  {
    var n := |instances| - 1;
    NewEntriesUnfold(instances, from);
    LookupAppend(NewEntries(instances[..n], from), Entries(Keys(instances[n]), n), key);
    LookupEntries(Keys(instances[n]), n, key);
  }

  /** No lookup hit in the new entries: no new instance has the key. */
  lemma {:induction false} NewEntriesMiss(instances: seq<ServiceType>, from: nat, key: TypeToken)
    requires from <= |instances| && Lookup(NewEntries(instances, from), key).None?
    ensures forall j :: from <= j < |instances| ==> key !in Keys(instances[j])
    decreases |instances|
  {
    if |instances| > from {
      var n := |instances| - 1;
      var init := instances[..n];
      NewEntriesLookupStep(instances, from, key);
      NewEntriesMiss(init, from, key);
      forall j | from <= j < |instances| ensures key !in Keys(instances[j]) {
        if j < n {
          assert instances[j] == init[j];
          assert key !in Keys(init[j]);
        } else {
          assert j == n;
        }
      }
    }
  }

  /** A lookup hit in the new entries: some new instance has the key. */
  lemma {:induction false} NewEntriesHit(instances: seq<ServiceType>, from: nat, key: TypeToken)
    requires from <= |instances| && Lookup(NewEntries(instances, from), key).Some?
    ensures exists j :: from <= j < |instances| && key in Keys(instances[j])
    decreases |instances|
  {
    var n := |instances| - 1;
    var init := instances[..n];
    NewEntriesLookupStep(instances, from, key);
    if Lookup(NewEntries(init, from), key).Some? {
      NewEntriesHit(init, from, key);
      var j :| from <= j < n && key in Keys(init[j]);
      assert instances[j] == init[j];
    } else {
      assert key in Keys(instances[n]);
    }
  }

  /**
   * After loading has registered the instances from `from` on behind `index0`, a lookup finds
   * nothing exactly when neither `index0` nor any of the new instances has the key: every
   * default built is found under each of its keys.
   */
  lemma LoadedLookup(index0: seq<Entry>, instances: seq<ServiceType>, from: nat, key: TypeToken)
    requires from <= |instances|
    ensures Lookup(index0 + NewEntries(instances, from), key).None? <==>
      Lookup(index0, key).None? && forall j :: from <= j < |instances| ==> key !in Keys(instances[j])
  {
    LookupAppend(index0, NewEntries(instances, from), key);
    NewEntriesNone(instances, from, key);
  }

  /** `key` was asked for: it is one of `requested`, or a dependency of an instance from `from` on. */
  ghost predicate Requested(key: TypeToken, requested: seq<TypeToken>, instances: seq<ServiceType>, from: nat)
  {
    key in requested || exists i :: from <= i < |instances| && key in instances[i].dependencies
  }

  /** The classes of `ts`. */
  function Names(ts: seq<ServiceType>): set<TypeToken>
  {
    set t | t in ts :: t.name
  }

  /**
   * The instances from `from` on were built on demand: each is the catalogued default of a
   * key that no instance answered in `index0` and that was asked for, either directly or as
   * a dependency of an instance built before it.
   */
  ghost predicate BuiltFor(catalog: map<TypeToken, ServiceType>, requested: seq<TypeToken>, index0: seq<Entry>,
                           instances: seq<ServiceType>, from: nat)
  {
    forall i {:trigger BuiltAt(catalog, requested, index0, instances[..i], instances[i], from)} :: from <= i < |instances| ==> BuiltAt(catalog, requested, index0, instances[..i], instances[i], from)
  }

  /**
   * `t`, built after the instances `earlier`, is the catalogued default of a key that was
   * asked for and that no instance answered: none in `index0`, and none built earlier in
   * the same load (`earlier` from `from` on).
   */
  ghost predicate BuiltAt(catalog: map<TypeToken, ServiceType>, requested: seq<TypeToken>, index0: seq<Entry>,
                          earlier: seq<ServiceType>, t: ServiceType, from: nat)
  {
    exists key :: key in catalog && t == catalog[key] && Lookup(index0, key).None? &&
                  (forall j :: from <= j < |earlier| ==> key !in Keys(earlier[j])) &&
                  Requested(key, requested, earlier, from)
  }

  /** The build record `constructed0` after one instance of each of `ts` has been built, in order. */
  function AfterBuilds(constructed0: map<TypeToken, nat>, ts: seq<ServiceType>): map<TypeToken, nat>
  {
    if ts == [] then constructed0
    else AfterBuilds(constructed0, ts[..|ts| - 1])[ts[|ts| - 1].name := 1]
  }

  /** After building `ts`, the record holds the classes it held before and those of `ts`, the latter counted once. */
  lemma {:induction false} AfterBuildsKeys(constructed0: map<TypeToken, nat>, ts: seq<ServiceType>)
    ensures forall name :: name in AfterBuilds(constructed0, ts) <==> name in constructed0 || name in Names(ts)
    ensures forall name :: name in Names(ts) ==> AfterBuilds(constructed0, ts)[name] == 1
  {
    if ts != [] {
      var init := ts[..|ts| - 1];
      AfterBuildsKeys(constructed0, init);
      assert ts == init + [ts[|ts| - 1]];
      NamesSnoc(init, ts[|ts| - 1]);
    }
  }

  /** The class of the instance registered at position `i`. */
  function ClassAt(instances: seq<ServiceType>, i: nat): TypeToken
    requires i < |instances|
  {
    instances[i].name
  }

  /**
   * The instances from `from` on were built once each: their classes are distinct and had
   * not been built before (`constructed0`), and the build record is `constructed0` with each
   * of them built once.
   */
  ghost predicate BuiltOnce(constructed0: map<TypeToken, nat>, instances: seq<ServiceType>, from: nat,
                            constructed: map<TypeToken, nat>)
  {
    && from <= |instances|
    && (forall i :: from <= i < |instances| ==> instances[i].name !in constructed0)
    && (forall i, j :: from <= i < j < |instances| ==> ClassAt(instances, i) != ClassAt(instances, j))
    && constructed == AfterBuilds(constructed0, instances[from..])
  }

  /**
   * Loading the defaults for `requested` turned `instances0`, `index0` and `constructed0` into
   * `instances`, `index` and `constructed`: the instances registered before keep their places,
   * the index gains the entries of the new instances after the old ones, each new instance is
   * the default of a requested key nothing answered yet, and each such class was built once.
   */
  ghost predicate Loaded(catalog: map<TypeToken, ServiceType>, requested: seq<TypeToken>,
                         instances0: seq<ServiceType>, index0: seq<Entry>, constructed0: map<TypeToken, nat>,
                         instances: seq<ServiceType>, index: seq<Entry>, constructed: map<TypeToken, nat>)
  {
    && |instances0| <= |instances| && instances[..|instances0|] == instances0
    && Extends(index0, index) && index == index0 + NewEntries(instances, |instances0|)
    && BuiltFor(catalog, requested, index0, instances, |instances0|)
    && BuiltOnce(constructed0, instances, |instances0|, constructed)
  }

  /**
   * A key asked for as a dependency of the instances registered before loading, or of one
   * built during it, is a dependency of some instance now registered.
   */
  lemma RequestedAll(key: TypeToken, before: seq<ServiceType>, instances: seq<ServiceType>)
    requires |before| <= |instances| && instances[..|before|] == before
    requires Requested(key, AllDependencies(before), instances, |before|)
    ensures Requested(key, [], instances, 0)
  {
    if key in AllDependencies(before) {
      var i :| 0 <= i < |before| && key in before[i].dependencies;
      assert instances[i] == before[i];
    }
  }

  /** A key asked for stays asked for when more instances are added. */
  lemma RequestedGrows(key: TypeToken, requested: seq<TypeToken>, a: seq<ServiceType>, b: seq<ServiceType>, from: nat)
    requires |a| <= |b| && b[..|a|] == a && Requested(key, requested, a, from)
    ensures Requested(key, requested, b, from)
  {
    if key !in requested {
      var i :| from <= i < |a| && key in a[i].dependencies;
      assert b[i] == a[i];
    }
  }

  lemma NamesSnoc(ts: seq<ServiceType>, t: ServiceType)
    ensures Names(ts + [t]) == Names(ts) + {t.name}
  {
    assert forall u :: u in ts + [t] <==> u in ts || u == t;
  }

  /** Building the default for the head of the worklist keeps every new instance one built on demand. */
  lemma BuiltForStep(catalog: map<TypeToken, ServiceType>, pending0: seq<TypeToken>, index0: seq<Entry>, n0: nat,
                     pending: seq<TypeToken>, index1: seq<Entry>, instances1: seq<ServiceType>, instances: seq<ServiceType>)
    requires n0 <= |instances1| && BuiltFor(catalog, pending0, index0, instances1, n0)
    requires pending != [] && forall k :: k in pending ==> Requested(k, pending0, instances1, n0)
    requires index1 == index0 + NewEntries(instances1, n0)
    requires pending[0] in catalog && Lookup(index1, pending[0]).None?
    requires instances == instances1 + [catalog[pending[0]]]
    ensures BuiltFor(catalog, pending0, index0, instances, n0)
  {
    var m, key := |instances1|, pending[0];
    assert key in pending;
    LoadedLookup(index0, instances1, n0, key);
    assert instances[..m] == instances1;
    forall i | n0 <= i < |instances|
      ensures BuiltAt(catalog, pending0, index0, instances[..i], instances[i], n0)
    {
      if i < m {
        assert BuiltAt(catalog, pending0, index0, instances1[..i], instances1[i], n0);
        assert instances[..i] == instances1[..i];
        assert instances[i] == instances1[i];
      } else {
        assert instances[..i] == instances1;
        assert instances[i] == catalog[key];
        BuiltAtNext(catalog, pending0, index0, instances1, key, n0);
      }
    }
  }

  /** A key that was asked for and that nothing answered, neither before nor since, is one whose default may be built next. */
  lemma BuiltAtNext(catalog: map<TypeToken, ServiceType>, requested: seq<TypeToken>, index0: seq<Entry>,
                    earlier: seq<ServiceType>, key: TypeToken, from: nat)
    requires key in catalog && Lookup(index0, key).None? && Requested(key, requested, earlier, from)
    requires forall j :: from <= j < |earlier| ==> key !in Keys(earlier[j])
    ensures BuiltAt(catalog, requested, index0, earlier, catalog[key], from)
  {
  }

  /** The instance at position `i` was built on demand. */
  lemma BuiltForAt(catalog: map<TypeToken, ServiceType>, requested: seq<TypeToken>, index0: seq<Entry>,
                   instances: seq<ServiceType>, from: nat, i: nat)
    requires BuiltFor(catalog, requested, index0, instances, from) && from <= i < |instances|
    ensures exists key :: key in catalog && instances[i] == catalog[key] && Lookup(index0, key).None? &&
                          (forall j :: from <= j < i ==> key !in Keys(instances[j])) &&
                          Requested(key, requested, instances[..i], from)
  {
    var earlier := instances[..i];
    assert BuiltAt(catalog, requested, index0, earlier, instances[i], from);
    var key :| key in catalog && instances[i] == catalog[key] && Lookup(index0, key).None? &&
               (forall j :: from <= j < |earlier| ==> key !in Keys(earlier[j])) &&
               Requested(key, requested, earlier, from);
    forall j | from <= j < i
      ensures key !in Keys(instances[j])
    {
      assert earlier[j] == instances[j];
    }
  }

  /**
   * When every key asked for directly already has an instance, dependency loading builds
   * nothing: an explicitly added service always wins over the default.
   */
  lemma NothingMissingNothingBuilt(catalog: map<TypeToken, ServiceType>, requested: seq<TypeToken>,
                                   index0: seq<Entry>, instances: seq<ServiceType>, from: nat)
    requires from <= |instances| && BuiltFor(catalog, requested, index0, instances, from)
    requires forall key :: key in requested ==> Lookup(index0, key).Some?
    ensures |instances| == from
  {
    if |instances| > from {
      BuiltForAt(catalog, requested, index0, instances, from, from);
      assert false;
    }
  }

  lemma {:induction false} NoDependenciesNone(ts: seq<ServiceType>)
    requires forall i :: 0 <= i < |ts| ==> ts[i].dependencies == []
    ensures AllDependencies(ts) == []
  {
    if ts != [] {
      NoDependenciesNone(ts[..|ts| - 1]);
    }
  }

  /**
   * Loading the dependencies of services that declare none builds nothing, and no key is
   * asked for, so the load cannot fail.
   */
  lemma NoDependenciesNothingBuilt(catalog: map<TypeToken, ServiceType>, index0: seq<Entry>,
                                   before: seq<ServiceType>, instances: seq<ServiceType>)
    requires |before| <= |instances| && instances[..|before|] == before
    requires forall i :: 0 <= i < |before| ==> before[i].dependencies == []
    requires BuiltFor(catalog, AllDependencies(before), index0, instances, |before|)
    ensures instances == before
    ensures forall key :: !Requested(key, [], instances, 0)
  {
    NoDependenciesNone(before);
    NothingMissingNothingBuilt(catalog, AllDependencies(before), index0, instances, |before|);
    assert instances == instances[..|before|];
  }

  /** One step of dependency loading keeps the instances it adds built on demand and once each. */
  lemma BuildsStep(catalog: map<TypeToken, ServiceType>, pending0: seq<TypeToken>, index0: seq<Entry>,
                   constructed0: map<TypeToken, nat>, n0: nat, pending: seq<TypeToken>, built: bool,
                   index1: seq<Entry>, instances1: seq<ServiceType>, constructed1: map<TypeToken, nat>,
                   instances: seq<ServiceType>, constructed: map<TypeToken, nat>)
    requires pending != [] && forall k :: k in pending ==> Requested(k, pending0, instances1, n0)
    requires index1 == index0 + NewEntries(instances1, n0)
    requires BuiltFor(catalog, pending0, index0, instances1, n0) && BuiltOnce(constructed0, instances1, n0, constructed1)
    requires !built ==> instances == instances1 && constructed == constructed1
    requires built ==> && pending[0] in catalog && Lookup(index1, pending[0]).None?
                       && instances == instances1 + [catalog[pending[0]]]
                       && catalog[pending[0]].name !in constructed1
                       && constructed == constructed1[catalog[pending[0]].name := 1]
    ensures BuiltFor(catalog, pending0, index0, instances, n0) && BuiltOnce(constructed0, instances, n0, constructed)
  {
    if built {
      BuiltForStep(catalog, pending0, index0, n0, pending, index1, instances1, instances);
      BuiltOnceStep(constructed0, n0, catalog[pending[0]], instances1, constructed1, instances, constructed);
    }
  }

  /**
   * The bookkeeping of dependency loading, `pending` keys still to load: the instances and
   * states from before are kept and lookups that succeeded still do; every requested key and
   * every dependency of a new instance has an instance or is pending; pending keys were asked
   * for; and each new instance was built on demand and once.
   */
  ghost predicate LoadAt(catalog: map<TypeToken, ServiceType>, pending0: seq<TypeToken>, n0: nat,
                         instances0: seq<ServiceType>, index0: seq<Entry>, constructed0: map<TypeToken, nat>,
                         state0: seq<Lifecycle>, pending: seq<TypeToken>, instances: seq<ServiceType>,
                         index: seq<Entry>, constructed: map<TypeToken, nat>, state: seq<Lifecycle>)
  {
    && n0 == |instances0|
    && Loaded(catalog, pending0, instances0, index0, constructed0, instances, index, constructed)
    && |state0| <= |instances| && state == Registered(state0, |instances|)
    && Covered(pending0, index, pending)
    && DepsCovered(instances, n0, index, pending)
    && (forall k :: k in pending ==> Requested(k, pending0, instances, n0))
  }

  /** Before dependency loading builds anything, every requested key is pending and the bookkeeping holds. */
  lemma LoadBegins(catalog: map<TypeToken, ServiceType>, pending0: seq<TypeToken>, instances: seq<ServiceType>,
                   index: seq<Entry>, constructed: map<TypeToken, nat>, state: seq<Lifecycle>)
    requires |state| == |instances|
    ensures LoadAt(catalog, pending0, |instances|, instances, index, constructed, state,
                   pending0, instances, index, constructed, state)
  {
    var n := |instances|;
    assert instances[..n] == instances && instances[n..] == [];
    assert index == index + NewEntries(instances, n);
    assert state == Registered(state, |instances|);
  }

  /** Dependency loading that stops at the head of `pending` has only built what was asked for, and stops on a requested key. */
  lemma LoadFails(catalog: map<TypeToken, ServiceType>, pending0: seq<TypeToken>, n0: nat,
                  instances0: seq<ServiceType>, index0: seq<Entry>, constructed0: map<TypeToken, nat>,
                  state0: seq<Lifecycle>, pending: seq<TypeToken>, instances: seq<ServiceType>,
                  index: seq<Entry>, constructed: map<TypeToken, nat>, state: seq<Lifecycle>)
    requires pending != []
    requires LoadAt(catalog, pending0, n0, instances0, index0, constructed0, state0,
                    pending, instances, index, constructed, state)
    requires pending[0] !in catalog && Lookup(index, pending[0]).None?
    ensures LoadFailed(catalog, pending0, n0, instances0, index0, constructed0, state0,
                       pending[0], instances, index, constructed, state)
  {
    assert pending[0] in pending;
  }

  /**
   * Dependency loading stopped on `key`: nothing provides it, it was asked for, and what
   * was built before is what the load promises.
   */
  ghost predicate LoadFailed(catalog: map<TypeToken, ServiceType>, pending0: seq<TypeToken>, n0: nat,
                             instances0: seq<ServiceType>, index0: seq<Entry>, constructed0: map<TypeToken, nat>,
                             state0: seq<Lifecycle>, key: TypeToken, instances: seq<ServiceType>,
                             index: seq<Entry>, constructed: map<TypeToken, nat>, state: seq<Lifecycle>)
  {
    && n0 == |instances0|
    && Loaded(catalog, pending0, instances0, index0, constructed0, instances, index, constructed)
    && |state0| <= |instances| && state == Registered(state0, |instances|)
    && key !in catalog && Lookup(index, key).None?
    && Requested(key, pending0, instances, n0)
  }

  /** One step of dependency loading, which resolves the head of `pending` and moves on to `next`, keeps `LoadAt`. */
  lemma LoadStep(catalog: map<TypeToken, ServiceType>, pending0: seq<TypeToken>, n0: nat,
                 instances0: seq<ServiceType>, index0: seq<Entry>, constructed0: map<TypeToken, nat>,
                 state0: seq<Lifecycle>, pending: seq<TypeToken>, next: seq<TypeToken>, built: bool,
                 instances1: seq<ServiceType>, index1: seq<Entry>, constructed1: map<TypeToken, nat>,
                 state1: seq<Lifecycle>, instances: seq<ServiceType>, index: seq<Entry>,
                 constructed: map<TypeToken, nat>, state: seq<Lifecycle>)
    requires pending != []
    requires LoadAt(catalog, pending0, n0, instances0, index0, constructed0, state0,
                    pending, instances1, index1, constructed1, state1)
    requires Extends(index1, index) && Lookup(index, pending[0]).Some?
    requires !built ==> && instances == instances1 && constructed == constructed1 && state == state1
                        && index == index1 && next == pending[1..]
    requires built ==> && pending[0] in catalog && Lookup(index1, pending[0]).None?
                       && instances == instances1 + [catalog[pending[0]]]
                       && index == index1 + Entries(Keys(catalog[pending[0]]), |instances1|)
                       && catalog[pending[0]].name !in constructed1
                       && constructed == constructed1[catalog[pending[0]].name := 1]
                       && state == state1 + [Created]
                       && next == instances[|instances1|].dependencies + pending[1..]
    ensures LoadAt(catalog, pending0, n0, instances0, index0, constructed0, state0,
                   next, instances, index, constructed, state)
  {
    if built {
      assert instances[..|instances1|] == instances1;
      IndexSnoc(index0, n0, instances1, catalog[pending[0]]);
    }
    BuildsStep(catalog, pending0, index0, constructed0, n0, pending, built,
               index1, instances1, constructed1, instances, constructed);
    ResolveStep(pending0, pending, next, n0, instances0, index0, instances1, index1, instances, index, built);
    FreshStep(state0, state1, state, |instances1|, built);
    PendingStep(pending0, n0, pending, next, instances1, instances, built);
  }

  /** One step of dependency loading only ever adds requested keys to the worklist. */
  lemma PendingStep(pending0: seq<TypeToken>, n0: nat, pending: seq<TypeToken>, next: seq<TypeToken>,
                    instances1: seq<ServiceType>, instances: seq<ServiceType>, built: bool)
    requires pending != [] && n0 <= |instances1|
    requires forall k :: k in pending ==> Requested(k, pending0, instances1, n0)
    requires !built ==> instances == instances1 && next == pending[1..]
    requires built ==> |instances| == |instances1| + 1 && instances[..|instances1|] == instances1
                       && next == instances[|instances1|].dependencies + pending[1..]
    ensures forall k :: k in next ==> Requested(k, pending0, instances, n0)
  {
    var m := |instances1|;
    forall k | k in next ensures Requested(k, pending0, instances, n0) {
      if k in pending[1..] {
        assert k in pending;
        RequestedGrows(k, pending0, instances1, instances, n0);
      } else {
        assert built && k in instances[m].dependencies;
      }
    }
  }

  /** Building a class not built before keeps every new instance's class built once. */
  lemma BuiltOnceStep(constructed0: map<TypeToken, nat>, n0: nat, t: ServiceType,
                      instances1: seq<ServiceType>, constructed1: map<TypeToken, nat>,
                      instances: seq<ServiceType>, constructed: map<TypeToken, nat>)
    requires BuiltOnce(constructed0, instances1, n0, constructed1)
    requires instances == instances1 + [t] && t.name !in constructed1 && constructed == constructed1[t.name := 1]
    ensures BuiltOnce(constructed0, instances, n0, constructed)
  {
    var m := |instances1|;
    assert instances[n0..] == instances1[n0..] + [t];
    assert (instances1[n0..] + [t])[..m - n0] == instances1[n0..];
    AfterBuildsKeys(constructed0, instances1[n0..]);
    forall i | n0 <= i < m ensures instances[i].name in constructed1 && instances[i] == instances1[i] {
      assert instances1[i] in instances1[n0..];
    }
    forall i, j | n0 <= i < j < |instances| ensures ClassAt(instances, i) != ClassAt(instances, j) {
      if j < m {
        assert ClassAt(instances1, i) != ClassAt(instances1, j);
      }
    }
  }

  /** One more step of a pass over the index extends the order by the instance it reaches, if new and ready. */
  lemma OrderSnoc(ids: seq<nat>, k: nat, ready: set<nat>)
    requires k < |ids|
    ensures Order(ids[..k + 1], ready) ==
      var r := Order(ids[..k], ready);
      if ids[k] in ready && ids[k] !in r then r + [ids[k]] else r
  {
    assert ids[..k + 1][..k] == ids[..k];
  }

  /** The start pass at entry `k` starts the instance there exactly when it is new to the pass and still `Created`. */
  lemma StartPassStep(ids: seq<nat>, k: nat, ready: set<nat>, started: seq<nat>, state0: seq<Lifecycle>)
    requires k < |ids| && started == Order(ids[..k], ready)
    requires ids[k] < |state0| && ready == CreatedIds(state0)
    ensures var id := ids[k];
      Order(ids[..k + 1], ready) ==
        if id !in started && Mark(state0, started, Started)[id] == Created then started + [id] else started
  {
    OrderSnoc(ids, k, ready);
  }

  /** When the pass reaches a created, not yet started instance at `k`, the plan continues with it. */
  lemma FailPlan(ids: seq<nat>, k: nat, ready: set<nat>, started: seq<nat>, state0: seq<Lifecycle>)
    requires k < |ids| && started == Order(ids[..k], ready)
    requires ids[k] < |state0| && ready == CreatedIds(state0)
    requires ids[k] !in started && Mark(state0, started, Started)[ids[k]] == Created
    ensures var plan := Order(ids, ready);
      |started| < |plan| && plan[..|started| + 1] == started + [ids[k]]
    ensures forall x :: x in started ==> x < |state0| && state0[x] == Created
  {
    StartPassStep(ids, k, ready, started, state0);
    assert Order(ids[..k + 1], ready) == started + [ids[k]];
    OrderPrefix(ids, k + 1, ready);
    forall x | x in started
      ensures x < |state0| && state0[x] == Created
    {
      assert x in ready;
    }
  }

  lemma MarkSnoc(state: seq<Lifecycle>, s: seq<nat>, id: nat, to: Lifecycle)
    requires id < |state|
    ensures Mark(state, s + [id], to) == Mark(state, s, to)[id := to]
  {
  }

  lemma EventsSnoc(log: seq<Event>, s: seq<nat>, id: nat)
    ensures log + StartEvents(s) + [Start(id)] == log + StartEvents(s + [id])
    ensures log + StopEvents(s) + [Stop(id)] == log + StopEvents(s + [id])
  {
    assert StartEvents(s + [id]) == StartEvents(s) + [Start(id)];
    assert StopEvents(s + [id]) == StopEvents(s) + [Stop(id)];
  }

  lemma FirstFailingSnoc(s: seq<nat>, id: nat, failing: set<nat>)
    ensures FirstFailing(s + [id], failing) ==
      if FirstFailing(s, failing).Some? then FirstFailing(s, failing)
      else if id in failing then Some(id) else None
  {
    assert (s + [id])[..|s|] == s;
  }

  lemma RollbackSnoc(log: seq<Event>, state: seq<Lifecycle>, s: seq<nat>, j: nat)
    requires 0 < j <= |s| && s[j - 1] < |state| && Distinct(s)
    ensures s[j - 1] !in s[j..]
    ensures log + RollbackEvents(s[j..]) + [Stop(s[j - 1])] == log + RollbackEvents(s[j - 1..])
    ensures Mark(state, s[j..], Stopped)[s[j - 1] := Stopped] == Mark(state, s[j - 1..], Stopped)
  {
    assert RollbackEvents(s[j - 1..]) == RollbackEvents(s[j..]) + [Stop(s[j - 1])];
    assert forall x :: x in s[j - 1..] <==> x in s[j..] || x == s[j - 1];
  }

  // ---------------------------------------------------------------------------
  // What a start pass and a stop pass do
  // ---------------------------------------------------------------------------

  /**
   * The calls a start pass over `plan` makes: `start` on each instance up to and including
   * the first that fails, then, if one failed, `stop` on the ones started, newest first.
   */
  function StartCalls(plan: seq<nat>, failing: set<nat>): seq<Event>
  {
    var n := FirstIn(plan, failing);
    if n == |plan| then StartEvents(plan)
    else StartEvents(plan[..n + 1]) + RollbackEvents(plan[..n])
  }

  /**
   * The lifecycle states after a start pass over `plan`: all started if none failed;
   * otherwise those before the failing one rolled back to `Stopped`, the failing one
   * `StartFailed`, and the rest untouched.
   */
  function StartStates(state: seq<Lifecycle>, plan: seq<nat>, failing: set<nat>): seq<Lifecycle>
  {
    var n := FirstIn(plan, failing);
    if n == |plan| then Mark(state, plan, Started)
    else Mark(Mark(state, plan[..n], Stopped), [plan[n]], StartFailed)
  }

  /** What a start pass throws: the exception of the first instance whose `start` fails. */
  function StartResult(plan: seq<nat>, failing: set<nat>): Outcome<Failure>
  {
    match FirstFailing(plan, failing)
    case Some(id) => Fail(StartFailure(id))
    case None => Pass
  }

  /** What a stop pass throws: the exception of the first instance whose `stop` fails. */
  function StopResult(plan: seq<nat>, failing: set<nat>): Outcome<Failure>
  {
    match FirstFailing(plan, failing)
    case Some(id) => Fail(StopFailure(id))
    case None => Pass
  }

  /** The first failing position is the one before which nothing fails and at which something does. */
  lemma FirstInAt(s: seq<nat>, n: nat, failing: set<nat>)
    requires n < |s| && s[n] in failing && forall i :: 0 <= i < n ==> s[i] !in failing
    ensures FirstIn(s, failing) == n
  {
  }

  /** The instances a start pass started before failing on `id` are a prefix of its plan, distinct and without `id`. */
  lemma StartedPrefix(started: seq<nat>, id: nat, plan: seq<nat>)
    requires |started| < |plan| && plan[..|started| + 1] == started + [id] && Distinct(plan)
    ensures plan[..|started|] == started && plan[|started|] == id
    ensures Distinct(started) && id !in started
  {
    assert plan[..|started|] == plan[..|started| + 1][..|started|];
    assert Distinct(plan[..|started| + 1]);
  }

  /**
   * A start pass that has started `started` and now fails on `id` ends, after its rollback,
   * exactly as `StartCalls` and `StartStates` say.
   */
  lemma StartFailureEffect(log: seq<Event>, state: seq<Lifecycle>, started: seq<nat>, id: nat,
                           plan: seq<nat>, failing: set<nat>)
    requires |started| < |plan| && plan[..|started| + 1] == started + [id] && Distinct(plan)
    requires (forall x :: x in started ==> x !in failing) && id in failing && id < |state|
    requires forall x :: x in started ==> x < |state|
    ensures FirstIn(plan, failing) == |started|
    ensures Distinct(started) && id !in started
    ensures forall x :: x in started ==> Mark(state, started, Started)[id := StartFailed][x] == Started
    ensures log + StartEvents(started) + [Start(id)] + RollbackEvents(started) ==
      log + StartCalls(plan, failing)
    ensures Mark(Mark(state, started, Started)[id := StartFailed], started, Stopped) ==
      StartStates(state, plan, failing)
  {
    StartedPrefix(started, id, plan);
    FirstInAt(plan, |started|, failing);
    StartFailureCalls(log, started, id, plan, failing);
    StartFailureStates(state, started, id, plan, failing);
  }

  lemma StartFailureCalls(log: seq<Event>, started: seq<nat>, id: nat, plan: seq<nat>, failing: set<nat>)
    requires FirstIn(plan, failing) == |started| < |plan| && plan[..|started|] == started && plan[|started|] == id
    ensures log + StartEvents(started) + [Start(id)] + RollbackEvents(started) ==
      log + StartCalls(plan, failing)
  {
    var n := |started|;
    assert StartCalls(plan, failing) == StartEvents(started + [id]) + RollbackEvents(started) by {
      assert plan[..n + 1] == started + [id];
    }
    StartEventsSnoc(started, id);
  }

  /** Starting one more instance appends one `start` call. */
  lemma StartEventsSnoc(s: seq<nat>, id: nat)
    ensures StartEvents(s + [id]) == StartEvents(s) + [Start(id)]
  {
    var es := StartEvents(s + [id]);
    assert forall i :: 0 <= i < |s| ==> es[i] == (StartEvents(s) + [Start(id)])[i];
  }

  lemma StartFailureStates(state: seq<Lifecycle>, started: seq<nat>, id: nat, plan: seq<nat>, failing: set<nat>)
    requires FirstIn(plan, failing) == |started| < |plan| && plan[..|started|] == started && plan[|started|] == id
    requires id < |state| && id !in started
    ensures Mark(Mark(state, started, Started)[id := StartFailed], started, Stopped) ==
      StartStates(state, plan, failing)
  {
  }

  /** A start pass that went through the whole index without a failure has done what `StartCalls` and `StartStates` say. */
  lemma StartPassDone(index: seq<Entry>, started: seq<nat>, ready: set<nat>, failing: set<nat>,
                      log0: seq<Event>, state0: seq<Lifecycle>, log: seq<Event>, state: seq<Lifecycle>)
    requires started == Order(Ids(index)[..|index|], ready) && (forall x :: x in started ==> x !in failing)
    requires log == log0 + StartEvents(started) && state == Mark(state0, started, Started)
    ensures var plan := Order(Ids(index), ready);
      && log == log0 + StartCalls(plan, failing)
      && state == StartStates(state0, plan, failing)
      && Pass == StartResult(plan, failing)
  {
    assert Ids(index)[..|index|] == Ids(index);
  }

  /**
   * A failed start pass rethrows the failing instance's own exception, calls `start` on no
   * instance after it, and calls `stop` exactly once on each instance started before it
   * and never on the failing one.
   */
  lemma {:induction false} StartFailureRollsBack(plan: seq<nat>, failing: set<nat>, x: nat)
    requires Distinct(plan) && FirstIn(plan, failing) < |plan|
    ensures var n := FirstIn(plan, failing);
      && StartResult(plan, failing) == Fail(StartFailure(plan[n]))
      && Count(StartCalls(plan, failing), Start(x)) == (if x in plan[..n + 1] then 1 else 0)
      && Count(StartCalls(plan, failing), Stop(x)) == (if x in plan[..n] then 1 else 0)
  {
    RollbackCounts(plan, FirstIn(plan, failing), x);
  }

  /** A successful start pass calls `start` once on each instance of the plan and `stop` on none. */
  lemma {:induction false} StartSuccessStartsOnce(plan: seq<nat>, failing: set<nat>, x: nat)
    requires Distinct(plan) && FirstIn(plan, failing) == |plan|
    ensures StartResult(plan, failing) == Pass
    ensures Count(StartCalls(plan, failing), Start(x)) == (if x in plan then 1 else 0)
    ensures Count(StartCalls(plan, failing), Stop(x)) == 0
  {
    CountStartEvents(plan, x);
  }

  /**
   * A stop pass over the index calls `stop` exactly once on each started instance, however
   * many keys it is registered under, and never on any other instance.
   */
  lemma {:induction false} StopPassStopsOnce(ids: seq<nat>, started: set<nat>, x: nat)
    ensures Count(StopEvents(Order(ids, started)), Stop(x)) == (if x in ids && x in started then 1 else 0)
    ensures Count(StopEvents(Order(ids, started)), Start(x)) == 0
  {
    CountStopEvents(Order(ids, started), x);
  }

  // ---------------------------------------------------------------------------
  // The locator
  // ---------------------------------------------------------------------------

  /**
   * The registry and lifecycle coordinator. An instance's identity is its position in
   * `instances`; `index` holds one entry per key it is registered under, in registration
   * order; `log` records every call of `start` and `stop`; `constructed` counts the
   * default implementations built by discovery, per class.
   */
  class ServiceLocator {
    const catalog: map<TypeToken, ServiceType>
    var instances: seq<ServiceType>
    var index: seq<Entry>
    var state: seq<Lifecycle>
    var log: seq<Event>
    var constructed: map<TypeToken, nat>

    /**
     * The locator's invariant: entries name registered instances under keys their type
     * has; each instance was started once unless still `Created` and stopped once exactly
     * when `Stopped`; each default class was built at most once, and once built it
     * answers every key it is the default for.
     */
    ghost predicate Valid()
      reads this
    {
      && CatalogOk(catalog)
      && |state| == |instances|
      && IndexOk(instances, index)
      && CountsOk(state, log)
      && BuildsOk(catalog, index, constructed)
    }

    /** `new ServiceLocator(services...)`: registers `services` in order; nothing is started. */
    constructor (catalog: map<TypeToken, ServiceType>, services: seq<ServiceType>)
      requires CatalogOk(catalog)
      ensures Valid()
      ensures this.catalog == catalog && instances == services
      ensures index == NewEntries(services, 0)
      ensures forall key :: Lookup(index, key) == FirstProvider(services, key)
      ensures state == Fresh(|services|) && log == [] && constructed == map[]
    {
      this.catalog := catalog;
      instances := [];
      index := [];
      state := [];
      log := [];
      constructed := map[];
      new;
      for i := 0 to |services|
        invariant Valid() && this.catalog == catalog
        invariant instances == services[..i] && state == Fresh(i)
        invariant index == NewEntries(services[..i], 0)
        invariant log == [] && constructed == map[]
      {
        PrefixSnoc(services, i);
        var id := AddService(services[i]);
        assert id == i;
      }
      assert services[..|services|] == services;
      forall key ensures Lookup(index, key) == FirstProvider(services, key) {
        RegisteredLookup(services, key);
      }
    }

    /**
     * `addService`: registers a new instance of `t` under every key of `t`. Lookups that
     * already succeeded are unaffected; a key without an instance now finds the new one
     * exactly when `t` is indexed under it.
     */
    method AddService(t: ServiceType) returns (id: nat)
      requires Valid()
      modifies this`instances, this`index, this`state, this`constructed
      ensures Valid()
      ensures id == old(|instances|) && instances == old(instances) + [t]
      ensures index == old(index) + Entries(Keys(t), id)
      ensures state == old(state) + [Created]
      ensures log == old(log) && constructed == old(constructed)
      ensures forall key ::
        Lookup(index, key) == (
        if old(Lookup(index, key)).Some? then old(Lookup(index, key))
        else if key in Keys(t) then Some(id) else None)
    {
      id := |instances|;
      forall key ensures Lookup(index + Entries(Keys(t), id), key) ==
        if Lookup(index, key).Some? then Lookup(index, key)
        else if key in Keys(t) then Some(id) else None
      {
        RegisterLookup(index, t, id, key);
      }
      RegisterKeepsIndexOk(instances, index, t);
      RegisterKeepsCountsOk(state, log);
      AppendKeepsBuildsOk(catalog, index, Entries(Keys(t), id), constructed);
      instances := instances + [t];
      state := state + [Created];
      index := index + Entries(Keys(t), id);
    }

    /**
     * Discovery: builds the catalogued default for `key`, which no instance answers yet,
     * and registers it. Its class had not been built before and has now been built once.
     */
    method Discover(key: TypeToken) returns (id: nat)
      requires Valid() && key in catalog && Lookup(index, key).None?
      modifies this`instances, this`index, this`state, this`constructed
      ensures Valid()
      ensures id == old(|instances|) && instances == old(instances) + [catalog[key]]
      ensures index == old(index) + Entries(Keys(catalog[key]), id)
      ensures state == old(state) + [Created] && log == old(log)
      ensures catalog[key].name !in old(constructed)
      ensures constructed == old(constructed)[catalog[key].name := 1]
      ensures Lookup(index, key) == Some(id)
      ensures Extends(old(index), index)
      ensures |Unresolved(catalog, index)| < old(|Unresolved(catalog, index)|)
    {
      var t := catalog[key];
      ghost var index0 := index;
      NeverBuilt(catalog, index, constructed, key);
      id := AddService(t);
      UnresolvedShrinks(catalog, index0, index, key);
      CountBuild(key);
    }

    /** Counts one more construction of the default class for `key`, which now answers all its keys. */
    method CountBuild(key: TypeToken)
      requires Valid() && key in catalog && catalog[key].name !in constructed
      requires forall k :: k in Keys(catalog[key]) ==> Lookup(index, k).Some?
      modifies this`constructed
      ensures Valid()
      ensures constructed == old(constructed)[catalog[key].name := 1]
    {
      var name := catalog[key].name;
      CountKeepsBuildsOk(catalog, index, constructed, key);
      constructed := constructed[name := TimesBuilt(constructed, name) + 1];
    }

    /**
     * `getService`: the instance registered first under `key`; failing that, the default
     * the catalog names for `key`, built and registered now; failing that, nothing.
     * An explicitly added instance always wins over the default, which is then never built.
     */
    method GetService(key: TypeToken) returns (r: Option<nat>)
      requires Valid()
      modifies this`instances, this`index, this`state, this`constructed
      ensures Valid()
      ensures old(Lookup(index, key)).Some? ==>
        r == old(Lookup(index, key)) && unchanged(this)
      ensures old(Lookup(index, key)).None? && key !in catalog ==> r == None && unchanged(this)
      ensures old(Lookup(index, key)).None? && key in catalog ==>
        && r == Some(old(|instances|))
        && instances == old(instances) + [catalog[key]]
        && index == old(index) + Entries(Keys(catalog[key]), old(|instances|))
        && state == old(state) + [Created]
        && constructed == old(constructed)[catalog[key].name := 1]
        && catalog[key].name !in old(constructed)
      ensures log == old(log) && Extends(old(index), index)
      ensures r.Some? ==> r.value < |instances| && key in Keys(instances[r.value]) && Lookup(index, key) == r
    {
      r := Lookup(index, key);
      if r.None? && key in catalog {
        var id := Discover(key);
        r := Some(id);
      } else if r.Some? {
        LookupSpec(index, key);
      }
    }

    /**
     * Loads every service type in `pending` and, recursively, the dependencies of each
     * default built on the way: a type that some instance already answers is left alone,
     * one with a catalogued default gets that default, any other fails the load.
     */
    method Resolve(pending0: seq<TypeToken>) returns (o: Outcome<Failure>)
      requires Valid()
      modifies this`instances, this`index, this`state, this`constructed
      ensures Valid()
      ensures Loaded(catalog, pending0, old(instances), old(index), old(constructed), instances, index, constructed)
      ensures state == Registered(old(state), |instances|) && log == old(log)
      ensures o.Pass? ==> Covered(pending0, index, [])
      ensures o.Pass? ==> DepsCovered(instances, old(|instances|), index, [])
      ensures o.Fail? ==>
        && o.error.UnresolvedDependency? && o.error.key !in catalog && Lookup(index, o.error.key).None?
        && Requested(o.error.key, pending0, instances, old(|instances|))
    {
      var pending := pending0;
      ghost var n0, instances0, index0, constructed0 := |instances|, instances, index, constructed;
      LoadBegins(catalog, pending0, instances, index, constructed, state);
      while pending != []
        invariant Valid() && log == old(log)
        invariant LoadAt(catalog, pending0, n0, instances0, index0, constructed0, old(state),
                         pending, instances, index, constructed, state)
        decreases |Unresolved(catalog, index)|, |pending|
      {
        var next;
        next, o := ResolveNext(pending0, n0, instances0, index0, constructed0, old(state), pending);
        if o.Fail? {
          return;
        }
        pending := next;
      }
      o := Pass;
    }

    /**
     * One round of dependency loading: resolves the head of `pending` and returns the
     * worklist that follows it, or fails on a requested key that nothing provides.
     */
    method ResolveNext(ghost pending0: seq<TypeToken>, ghost n0: nat, ghost instances0: seq<ServiceType>,
                       ghost index0: seq<Entry>, ghost constructed0: map<TypeToken, nat>,
                       ghost state0: seq<Lifecycle>, pending: seq<TypeToken>)
      returns (next: seq<TypeToken>, o: Outcome<Failure>)
      requires Valid() && pending != []
      requires LoadAt(catalog, pending0, n0, instances0, index0, constructed0, state0,
                      pending, instances, index, constructed, state)
      modifies this`instances, this`index, this`state, this`constructed
      ensures Valid() && log == old(log)
      ensures o.Pass? ==> LoadAt(catalog, pending0, n0, instances0, index0, constructed0, state0,
                                 next, instances, index, constructed, state)
      ensures o.Pass? ==> || |Unresolved(catalog, index)| < old(|Unresolved(catalog, index)|)
                          || (|Unresolved(catalog, index)| == old(|Unresolved(catalog, index)|) && |next| < |pending|)
      ensures o.Fail? ==> o.error.UnresolvedDependency?
      ensures o.Fail? ==> LoadFailed(catalog, pending0, n0, instances0, index0, constructed0, state0,
                                     o.error.key, instances, index, constructed, state)
    {
      ghost var index1, instances1, state1, constructed1 := index, instances, state, constructed;
      var key := pending[0];
      var built: bool;
      built, o := ResolveOne(key);
      if o.Fail? {
        LoadFails(catalog, pending0, n0, instances0, index0, constructed0, state0,
                  pending, instances, index, constructed, state);
        next := [];
        return;
      }
      next := if built then instances[|instances| - 1].dependencies + pending[1..] else pending[1..];
      LoadStep(catalog, pending0, n0, instances0, index0, constructed0, state0, pending, next, built,
               instances1, index1, constructed1, state1, instances, index, constructed, state);
    }

    /**
     * One step of dependency loading: `key` is left alone if an instance answers it, gets its
     * catalogued default (`built`) otherwise, and fails the load if it has none.
     */
    method ResolveOne(key: TypeToken) returns (built: bool, o: Outcome<Failure>)
      requires Valid()
      modifies this`instances, this`index, this`state, this`constructed
      ensures Valid()
      ensures log == old(log) && Extends(old(index), index)
      ensures built <==> old(Lookup(index, key)).None? && key in catalog
      ensures o.Fail? <==> old(Lookup(index, key)).None? && key !in catalog
      ensures o.Fail? ==>
        !built && o == Fail(UnresolvedDependency(key)) && key !in catalog && Lookup(index, key).None?
      ensures o.Pass? ==> Lookup(index, key).Some?
      ensures !built ==>
        instances == old(instances) && state == old(state) && index == old(index) && constructed == old(constructed)
      ensures built ==> && key in catalog
                        && instances == old(instances) + [catalog[key]]
                        && index == old(index) + Entries(Keys(catalog[key]), old(|instances|))
                        && state == old(state) + [Created]
                        && catalog[key].name !in old(constructed)
                        && constructed == old(constructed)[catalog[key].name := 1]
                        && |Unresolved(catalog, index)| < old(|Unresolved(catalog, index)|)
    {
      built := false;
      o := Pass;
      if Lookup(index, key).None? {
        if key !in catalog {
          o := Fail(UnresolvedDependency(key));
          return;
        }
        var _ := Discover(key);
        built := true;
      }
    }

    /** `loadDependenciesOf`: makes every dependency `t` declares, direct or transitive, resolvable. */
    method LoadDependenciesOf(t: ServiceType) returns (o: Outcome<Failure>)
      requires Valid()
      modifies this`instances, this`index, this`state, this`constructed
      ensures Valid()
      ensures Loaded(catalog, t.dependencies, old(instances), old(index), old(constructed), instances, index, constructed)
      ensures state == Registered(old(state), |instances|) && log == old(log)
      ensures o.Pass? ==> Covered(t.dependencies, index, [])
      ensures o.Pass? ==> DepsCovered(instances, old(|instances|), index, [])
      ensures o.Fail? ==>
        && o.error.UnresolvedDependency? && o.error.key !in catalog && Lookup(index, o.error.key).None?
        && Requested(o.error.key, t.dependencies, instances, old(|instances|))
    {
      o := Resolve(t.dependencies);
    }

    /** Loads the dependencies of every registered instance, as the start phase does first. */
    method ResolveMissingDependencies() returns (o: Outcome<Failure>)
      requires Valid()
      modifies this`instances, this`index, this`state, this`constructed
      ensures Valid()
      ensures Loaded(catalog, AllDependencies(old(instances)), old(instances), old(index), old(constructed),
                     instances, index, constructed)
      ensures state == Registered(old(state), |instances|) && log == old(log)
      ensures o.Pass? ==> DepsCovered(instances, 0, index, [])
      ensures o.Fail? ==>
        && o.error.UnresolvedDependency? && o.error.key !in catalog && Lookup(index, o.error.key).None?
        && Requested(o.error.key, [], instances, 0)
    {
      ghost var n, before, constructed0, index0 := |instances|, instances, constructed, index;
      o := Resolve(AllDependencies(instances));
      assert BuiltOnce(constructed0, instances, n, constructed);
      assert index == index0 + NewEntries(instances, n);
      if o.Fail? {
        RequestedAll(o.error.key, before, instances);
      }
      if o.Pass? {
        AllDependenciesCovered(before, instances, index);
      }
    }
  
    /** Records the call `e` on a service and moves that service to state `to`. */
    method Record(e: Event, to: Lifecycle)
      requires Valid() && e.id < |state|
      requires e.Start? ==> state[e.id] == Created && to != Created && to != Stopped
      requires e.Stop? ==> state[e.id] == Started && to == Stopped
      modifies this`state, this`log
      ensures Valid()
      ensures log == old(log) + [e] && state == old(state)[e.id := to]
    {
      StepKeepsCountsOk(state, log, e, to);
      log := log + [e];
      state := state[e.id := to];
    }

    /**
     * The calls, states and outcome of a start pass that began with `state0` and `log0`: `start`
     * is called on the instances that were `Created`, in index order, until one in `failing` fails.
     */
    ghost predicate StartedFrom(state0: seq<Lifecycle>, log0: seq<Event>, failing: set<nat>, o: Outcome<Failure>)
      reads this
    {
      var plan := Order(Ids(index), CreatedIds(state0));
      && log == log0 + StartCalls(plan, failing)
      && state == StartStates(state0, plan, failing)
      && o == StartResult(plan, failing)
    }

    /**
     * The start pass proper: goes through the index in order and calls `start` once on
     * each distinct instance still `Created`; on the first failure it rolls back and
     * rethrows that failure.
     */
    method StartRegistered(failing: set<nat>) returns (o: Outcome<Failure>)
      requires Valid()
      modifies this`state, this`log
      ensures Valid()
      ensures StartedFrom(old(state), old(log), failing, o)
    {
      ghost var ready, ids, state0, log0 := CreatedIds(state), Ids(index), state, log;
      var started: seq<nat> := [];
      var k := 0;
      while k < |index|
        invariant 0 <= k <= |index|
        invariant Valid()
        invariant StartPassAt(k, started, ready, failing, log0, state0)
      {
        var id := index[k].id;
        if id !in started && state[id] == Created {
          if id in failing {
            o := FailAt(k, started, ready, failing, log0, state0);
            return;
          }
          started := StartAt(k, started, ready, failing, log0, state0);
        } else {
          SkipAt(k, started, ready, failing, log0, state0);
        }
        k := k + 1;
      }
      StartPassDone(index, started, ready, failing, log0, state0, log, state);
      o := Pass;
    }

    /**
     * The progress of a start pass that has gone through `k` entries of the index: it has
     * started, without failure, the distinct `Created` instances those entries reach.
     */
    ghost predicate StartPassAt(k: nat, started: seq<nat>, ready: set<nat>, failing: set<nat>,
                                log0: seq<Event>, state0: seq<Lifecycle>)
      reads this
    {
      && k <= |index|
      && started == Order(Ids(index)[..k], ready)
      && (forall x :: x in started ==> x !in failing)
      && log == log0 + StartEvents(started)
      && state == Mark(state0, started, Started)
      && |state0| == |state|
      && ready == CreatedIds(state0)
    }

    /** The start pass passes over entry `k` when it has already started that instance or the instance is not `Created`. */
    lemma SkipAt(k: nat, started: seq<nat>, ready: set<nat>, failing: set<nat>,
                 log0: seq<Event>, state0: seq<Lifecycle>)
      requires Valid() && k < |index| && StartPassAt(k, started, ready, failing, log0, state0)
      requires index[k].id in started || state[index[k].id] != Created
      ensures StartPassAt(k + 1, started, ready, failing, log0, state0)
    {
      StartPassStep(Ids(index), k, ready, started, state0);
    }

    /** The start pass reaches, at entry `k`, an instance new to it and still `Created`, whose `start` succeeds. */
    method StartAt(k: nat, started: seq<nat>, ghost ready: set<nat>, failing: set<nat>,
                   ghost log0: seq<Event>, ghost state0: seq<Lifecycle>) returns (started': seq<nat>)
      requires Valid() && k < |index| && StartPassAt(k, started, ready, failing, log0, state0)
      requires index[k].id !in started && state[index[k].id] == Created && index[k].id !in failing
      modifies this`state, this`log
      ensures Valid()
      ensures StartPassAt(k + 1, started', ready, failing, log0, state0)
    {
      StartPassStep(Ids(index), k, ready, started, state0);
      started' := StartOne(started, index[k].id, log0, state0);
    }

    /** The start pass reaches, at entry `k`, an instance new to it and still `Created`, whose `start` fails. */
    method FailAt(k: nat, started: seq<nat>, ghost ready: set<nat>, failing: set<nat>,
                  ghost log0: seq<Event>, ghost state0: seq<Lifecycle>) returns (o: Outcome<Failure>)
      requires Valid() && k < |index| && StartPassAt(k, started, ready, failing, log0, state0)
      requires index[k].id !in started && state[index[k].id] == Created && index[k].id in failing
      modifies this`state, this`log
      ensures Valid()
      ensures var plan := Order(Ids(index), ready);
        && log == log0 + StartCalls(plan, failing)
        && state == StartStates(state0, plan, failing)
        && o == StartResult(plan, failing)
    {
      ghost var ids := Ids(index);
      FailPlan(ids, k, ready, started, state0);
      o := AbortStart(started, index[k].id, log0, state0, Order(ids, ready), failing);
    }

    /** The start pass calls `start` on `id`, which succeeds, after having started `started`. */
    method StartOne(started: seq<nat>, id: nat, ghost log0: seq<Event>, ghost state0: seq<Lifecycle>)
      returns (started': seq<nat>)
      requires Valid() && id < |state| && state[id] == Created && id < |state0|
      requires log == log0 + StartEvents(started) && state == Mark(state0, started, Started)
      modifies this`state, this`log
      ensures Valid()
      ensures started' == started + [id]
      ensures log == log0 + StartEvents(started') && state == Mark(state0, started', Started)
    {
      MarkSnoc(state0, started, id, Started);
      EventsSnoc(log0, started, id);
      Record(Start(id), Started);
      started' := started + [id];
    }

    /**
     * The end of a start pass whose `start` on `id` fails after `started` were started:
     * records that call, rolls back, and rethrows the failure.
     */
    method AbortStart(started: seq<nat>, id: nat, ghost log0: seq<Event>, ghost state0: seq<Lifecycle>,
                      ghost plan: seq<nat>, ghost failing: set<nat>) returns (o: Outcome<Failure>)
      requires Valid() && id < |state| && state[id] == Created
      requires |started| < |plan| && plan[..|started| + 1] == started + [id] && Distinct(plan)
      requires (forall x :: x in started ==> x !in failing) && id in failing
      requires log == log0 + StartEvents(started) && state == Mark(state0, started, Started)
      requires forall x :: x in started ==> x < |state| && state0[x] == Created
      modifies this`state, this`log
      ensures Valid()
      ensures log == log0 + StartCalls(plan, failing)
      ensures state == StartStates(state0, plan, failing)
      ensures o == StartResult(plan, failing)
    {
      StartFailureEffect(log0, state0, started, id, plan, failing);
      Record(Start(id), StartFailed);
      Rollback(started);
      o := Fail(StartFailure(id));
    }

    /** The rollback of a failed start pass: `stop` on each of `started`, newest first; failures are swallowed. */
    method Rollback(started: seq<nat>)
      requires Valid() && Distinct(started)
      requires forall x :: x in started ==> x < |state| && state[x] == Started
      modifies this`state, this`log
      ensures Valid()
      ensures log == old(log) + RollbackEvents(started)
      ensures state == Mark(old(state), started, Stopped)
    {
      var j := |started|;
      while j > 0
        invariant 0 <= j <= |started|
        invariant Valid()
        invariant log == old(log) + RollbackEvents(started[j..])
        invariant state == Mark(old(state), started[j..], Stopped)
      {
        var id := started[j - 1];
        assert id in started;
        RollbackSnoc(old(log), old(state), started, j);
        Record(Stop(id), Stopped);
        j := j - 1;
      }
    }

    /**
     * `startAllServices`: loads the dependencies of every registered instance, then runs the
     * start pass. A dependency that cannot be loaded fails the call before anything starts.
     */
    method StartAllServices(failing: set<nat>) returns (o: Outcome<Failure>)
      requires Valid()
      modifies this
      ensures Valid()
      ensures Loaded(catalog, AllDependencies(old(instances)), old(instances), old(index), old(constructed),
                     instances, index, constructed)
      ensures o.Fail? && o.error.UnresolvedDependency? ==>
        && log == old(log) && state == Registered(old(state), |instances|)
        && o.error.key !in catalog && Lookup(index, o.error.key).None?
        && Requested(o.error.key, [], instances, 0)
      ensures !(o.Fail? && o.error.UnresolvedDependency?) ==>
        && DepsCovered(instances, 0, index, [])
        && StartedFrom(Registered(old(state), |instances|), old(log), failing, o)
    {
      o := ResolveMissingDependencies();
      if o.Fail? {
        return;
      }
      ghost var state1 := state;
      assert state1 == Registered(old(state), |instances|);
      assert DepsCovered(instances, 0, index, []);
      o := StartRegistered(failing);
      assert StartedFrom(state1, old(log), failing, o);
    }

    /**
     * `stopAllServices`: goes through the index in order and calls `stop` once on each
     * distinct started instance, carrying on past failures; afterwards it throws the
     * exception of the first `stop` that failed, if any.
     */
    method StopAllServices(failing: set<nat>) returns (o: Outcome<Failure>)
      requires Valid()
      modifies this`state, this`log
      ensures Valid()
      ensures var plan := Order(Ids(index), StartedIds(old(state)));
        && log == old(log) + StopEvents(plan)
        && state == Mark(old(state), plan, Stopped)
        && o == StopResult(plan, failing)
      ensures forall id :: 0 <= id < |instances| ==>
        state[id] == (if old(state)[id] == Started then Stopped else old(state)[id])
    {
      ghost var ready, ids, state0, log0 := StartedIds(state), Ids(index), state, log;
      var stopped: seq<nat> := [];
      var first: Option<nat> := None;
      for k := 0 to |index|
        invariant Valid()
        invariant StopPassAt(k, stopped, first, ready, failing, log0, state0)
      {
        var id := index[k].id;
        if id !in stopped && state[id] == Started {
          stopped, first := StopAt(k, stopped, first, ready, failing, log0, state0);
        } else {
          SkipStopAt(k, stopped, first, ready, failing, log0, state0);
        }
      }
      assert ids[..|index|] == ids;
      o := if first.Some? then Fail(StopFailure(first.value)) else Pass;
    }

    /**
     * The progress of a stop pass that has gone through `k` entries of the index: it has
     * called `stop` once on each distinct started instance those entries reach, and `first`
     * is the first of those calls that failed.
     */
    ghost predicate StopPassAt(k: nat, stopped: seq<nat>, first: Option<nat>, ready: set<nat>, failing: set<nat>,
                               log0: seq<Event>, state0: seq<Lifecycle>)
      reads this
    {
      && k <= |index|
      && stopped == Order(Ids(index)[..k], ready)
      && log == log0 + StopEvents(stopped)
      && state == Mark(state0, stopped, Stopped)
      && first == FirstFailing(stopped, failing)
      && |state0| == |state|
      && ready == StartedIds(state0)
    }

    /** The stop pass passes over entry `k` when it has already stopped that instance or the instance is not `Started`. */
    lemma SkipStopAt(k: nat, stopped: seq<nat>, first: Option<nat>, ready: set<nat>, failing: set<nat>,
                     log0: seq<Event>, state0: seq<Lifecycle>)
      requires Valid() && k < |index| && StopPassAt(k, stopped, first, ready, failing, log0, state0)
      requires index[k].id in stopped || state[index[k].id] != Started
      ensures StopPassAt(k + 1, stopped, first, ready, failing, log0, state0)
    {
      OrderSnoc(Ids(index), k, ready);
    }

    /** The stop pass calls `stop` on the instance at entry `k`, new to it and `Started`; a failure is remembered if it is the first. */
    method StopAt(k: nat, stopped: seq<nat>, first: Option<nat>, ghost ready: set<nat>, failing: set<nat>,
                  ghost log0: seq<Event>, ghost state0: seq<Lifecycle>) returns (stopped': seq<nat>, first': Option<nat>)
      requires Valid() && k < |index| && StopPassAt(k, stopped, first, ready, failing, log0, state0)
      requires index[k].id !in stopped && state[index[k].id] == Started
      modifies this`state, this`log
      ensures Valid()
      ensures StopPassAt(k + 1, stopped', first', ready, failing, log0, state0)
    {
      var id := index[k].id;
      OrderSnoc(Ids(index), k, ready);
      EventsSnoc(log0, stopped, id);
      MarkSnoc(state0, stopped, id, Stopped);
      FirstFailingSnoc(stopped, id, failing);
      Record(Stop(id), Stopped);
      first' := if id in failing && first.None? then Some(id) else first;
      stopped' := stopped + [id];
    }
  }
}
