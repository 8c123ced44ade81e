/**
 * The default serialization provider: picking the serializer class for a payload type from
 * an insertion-ordered map of serializer registrations, the search for the KEY or VALUE
 * serializer configuration among a cache's service configurations, the default
 * registration for `Serializable` done at start, and the choice between the transient and
 * the persistent provider.
 *
 * Java classes, serializer classes, persistence spaces and the persistence service are
 * opaque tokens; `isAssignableFrom` is an abstract relation passed in by the caller.
 */
module Serialization {
  import opened Results

  /** A payload class; `SerializableClass` stands for `java.io.Serializable`. */
  datatype JavaClass = SerializableClass | UserClass(id: nat)

  /** A serializer implementation class. */
  datatype SerializerClass = CompactJavaSerializer | CompactPersistentJavaSerializer | UserSerializer(id: nat)

  /** One entry of a provider's `LinkedHashMap` from payload class to serializer class. */
  datatype Mapping = Mapping(key: JavaClass, serializer: SerializerClass)

  /** Whether a serializer configuration is meant for keys or for values. */
  datatype SerializerType = Key | Value

  /** A `DefaultSerializerConfiguration`: its type and the serializer class it names, which may be null. */
  datatype SerializerConfig = SerializerConfig(kind: SerializerType, clazz: Option<SerializerClass>)

  /** The service configurations a cache passes when it asks for a serializer. */
  datatype ServiceConfig =
    | SerializerConfiguration(config: SerializerConfig)
    | PersistenceSpaceIdentifier(space: nat)
    | OtherConfiguration(tag: nat)

  datatype Error = IllegalArgument | UnsupportedType(clazz: JavaClass) | NullPointer

  datatype ProviderKind = Transient | Persistent

  /** Where a persistent serializer keeps its files: a space and a context name within it. */
  datatype PersistenceContext = PersistenceContext(space: Option<nat>, name: string)

  /** A constructed serializer: its class, the payload class it serves, and its persistence context if any. */
  datatype Serializer = Serializer(serializerClass: SerializerClass, payload: JavaClass,
                                   context: Option<PersistenceContext>)

  /** The configuration of the whole provider: the transient and the persistent registrations. */
  datatype ProviderConfiguration = ProviderConfiguration(transientSerializers: seq<Mapping>,
                                                         persistentSerializers: seq<Mapping>)

  // ---------------------------------------------------------------------------
  // The insertion-ordered map
  // ---------------------------------------------------------------------------

  /** A Java map holds each key at most once. */
  predicate KeysDistinct(m: seq<Mapping>)
  {
    forall i, j :: 0 <= i < j < |m| ==> m[i].key != m[j].key
  }

  /** `serializers.get(k)`. */
  function Get(m: seq<Mapping>, k: JavaClass): (r: Option<SerializerClass>)
    ensures r.None? <==> forall i :: 0 <= i < |m| ==> m[i].key != k
    ensures r.Some? ==> Mapping(k, r.value) in m
  {
    if m == [] then None
    else if m[0].key == k then Some(m[0].serializer)
    else Get(m[1..], k)
  }

  /** In a map with distinct keys, `get` finds the serializer of the one entry with that key. */
  lemma GetUnique(m: seq<Mapping>, i: nat)
    requires KeysDistinct(m) && i < |m|
    ensures Get(m, m[i].key) == Some(m[i].serializer)
  {
    var k := m[i].key;
    var v := Get(m, k).value;
    var j :| 0 <= j < |m| && m[j] == Mapping(k, v);
    assert i == j;
  }

  /** `put` of a key the map does not hold appends the entry; no earlier lookup changes. */
  lemma {:induction false} GetAppend(m: seq<Mapping>, e: Mapping, k: JavaClass)
    ensures Get(m + [e], k) ==
      if Get(m, k).Some? then Get(m, k)
      else if e.key == k then Some(e.serializer) else None
  {
    if m != [] {
      assert (m + [e])[1..] == m[1..] + [e];
      GetAppend(m[1..], e, k);
    }
  }

  // ---------------------------------------------------------------------------
  // getClassFor
  // ---------------------------------------------------------------------------

  /** The position of the first entry, in insertion order, whose key is assignable from `clazz`, or `|m|`. */
  function FirstAssignable(m: seq<Mapping>, clazz: JavaClass, isAssignableFrom: (JavaClass, JavaClass) -> bool): (n: nat)
    ensures n <= |m|
    ensures forall j :: 0 <= j < n ==> !isAssignableFrom(m[j].key, clazz)
    ensures n < |m| ==> isAssignableFrom(m[n].key, clazz)
  {
    if m == [] then 0
    else if isAssignableFrom(m[0].key, clazz) then 0
    else 1 + FirstAssignable(m[1..], clazz, isAssignableFrom)
  }

  /** The configuration names a serializer class of its own. */
  predicate Overridden(config: Option<SerializerConfig>)
  {
    config.Some? && config.value.clazz.Some?
  }

  /**
   * `getClassFor`: the class the matching configuration names, if it names one; else the
   * serializer registered for exactly `clazz`; else that of the first registration, in
   * insertion order, whose key `clazz` is assignable to; else `UnsupportedTypeException`.
   */
  function ClassFor(m: seq<Mapping>, clazz: JavaClass, config: Option<SerializerConfig>,
                    isAssignableFrom: (JavaClass, JavaClass) -> bool): (r: Result<SerializerClass, Error>)
    requires KeysDistinct(m)
    ensures Overridden(config) ==> r == Success(config.value.clazz.value)
    ensures !Overridden(config) ==> forall i :: 0 <= i < |m| && m[i].key == clazz ==> r == Success(m[i].serializer)
    ensures !Overridden(config) && (forall i :: 0 <= i < |m| ==> m[i].key != clazz) ==>
      && (r.Failure? <==> forall i :: 0 <= i < |m| ==> !isAssignableFrom(m[i].key, clazz))
      && (r.Failure? ==> r.error == UnsupportedType(clazz))
      && (r.Success? ==> exists i :: 0 <= i < |m| && isAssignableFrom(m[i].key, clazz) && r.value == m[i].serializer
                                     && forall j :: 0 <= j < i ==> !isAssignableFrom(m[j].key, clazz))
  {
    if Overridden(config) then Success(config.value.clazz.value)
    else
      match Get(m, clazz)
      case Some(s) =>
        assert forall i :: 0 <= i < |m| && m[i].key == clazz ==> s == m[i].serializer by {
          forall i | 0 <= i < |m| && m[i].key == clazz ensures s == m[i].serializer {
            GetUnique(m, i);
          }
        }
        Success(s)
      case None =>
        var n := FirstAssignable(m, clazz, isAssignableFrom);
        if n < |m| then Success(m[n].serializer) else Failure(UnsupportedType(clazz))
  }

  // ---------------------------------------------------------------------------
  // find
  // ---------------------------------------------------------------------------

  /** The serializer configurations of type `kind` among `configs`, in order. */
  function Matching(kind: SerializerType, configs: seq<ServiceConfig>): (r: seq<SerializerConfig>)
    ensures |r| <= |configs|
    ensures forall c :: c in r <==> SerializerConfiguration(c) in configs && c.kind == kind
  {
    if configs == [] then []
    else
      var rest := Matching(kind, configs[..|configs| - 1]);
      var last := configs[|configs| - 1];
      assert forall c :: c in configs <==> c in configs[..|configs| - 1] || c == last;
      if last.SerializerConfiguration? && last.config.kind == kind then rest + [last.config] else rest
  }

  /** What `find` returns: nothing, the one configuration of that type, or `IllegalArgumentException` on a second one. */
  function Selected(kind: SerializerType, configs: seq<ServiceConfig>): Result<Option<SerializerConfig>, Error>
  {
    var found := Matching(kind, configs);
    if |found| == 0 then Success(None)
    else if |found| == 1 then Success(Some(found[0]))
    else Failure(IllegalArgument)
  }

  /**
   * `find`: goes through the configurations and keeps the serializer configuration of type
   * `kind`; meeting a second one fails with `IllegalArgumentException`.
   */
  method Find(kind: SerializerType, configs: seq<ServiceConfig>) returns (r: Result<Option<SerializerConfig>, Error>)
    ensures |Matching(kind, configs)| == 0 ==> r == Success(None)
    ensures |Matching(kind, configs)| == 1 ==> r == Success(Some(Matching(kind, configs)[0]))
    ensures |Matching(kind, configs)| >= 2 ==> r == Failure(IllegalArgument)
  {
    var result: Option<SerializerConfig> := None;
    for i := 0 to |configs|
      invariant FindAt(kind, configs, i, result)
    {
      FindStep(kind, configs, i, result);
      var c := configs[i];
      if c.SerializerConfiguration? && c.config.kind == kind {
        if result.Some? {
          return Failure(IllegalArgument);
        }
        result := Some(c.config);
      }
    }
    assert configs[..|configs|] == configs;
    r := Success(result);
  }

  /** `c` is a serializer configuration for the `kind` side. */
  predicate IsOf(kind: SerializerType, c: ServiceConfig)
  {
    c.SerializerConfiguration? && c.config.kind == kind
  }

  /** No configuration is selected exactly when none has the requested type. */
  lemma {:induction false} MatchingNone(kind: SerializerType, configs: seq<ServiceConfig>)
    ensures |Matching(kind, configs)| == 0 <==> forall i :: 0 <= i < |configs| ==> !IsOf(kind, configs[i])
  {
    if configs != [] {
      var init := configs[..|configs| - 1];
      MatchingNone(kind, init);
      assert forall i :: 0 <= i < |init| ==> init[i] == configs[i];
    }
  }

  /** One more configuration adds itself to the selection exactly when it has the requested type. */
  lemma MatchingSnoc(kind: SerializerType, configs: seq<ServiceConfig>)
    requires configs != []
    ensures |Matching(kind, configs)| ==
      |Matching(kind, configs[..|configs| - 1])| + if IsOf(kind, configs[|configs| - 1]) then 1 else 0
  {
  }

  /** Some two positions of `configs` hold configurations of type `kind`. */
  ghost predicate TwoOf(kind: SerializerType, configs: seq<ServiceConfig>)
  {
    exists i, j :: 0 <= i < j < |configs| && IsOf(kind, configs[i]) && IsOf(kind, configs[j])
  }

  /** Two configurations of type `kind` are among `configs` exactly when two are among all but the last, or the last is one and another is before it. */
  lemma TwoOfSnoc(kind: SerializerType, configs: seq<ServiceConfig>)
    requires configs != []
    ensures var init := configs[..|configs| - 1];
      TwoOf(kind, configs) <==>
        || TwoOf(kind, init)
        || (IsOf(kind, configs[|configs| - 1]) && exists i :: 0 <= i < |init| && IsOf(kind, init[i]))
  {
    var n := |configs| - 1;
    var init := configs[..n];
    if TwoOf(kind, configs) {
      var i, j :| 0 <= i < j < |configs| && IsOf(kind, configs[i]) && IsOf(kind, configs[j]);
      assert configs[i] == init[i];
      if j < n {
        assert configs[j] == init[j];
      }
    }
    if TwoOf(kind, init) {
      var i, j :| 0 <= i < j < n && IsOf(kind, init[i]) && IsOf(kind, init[j]);
      assert configs[i] == init[i] && configs[j] == init[j];
    }
    if IsOf(kind, configs[n]) && exists i :: 0 <= i < n && IsOf(kind, init[i]) {
      var i :| 0 <= i < n && IsOf(kind, init[i]);
      assert configs[i] == init[i];
    }
  }

  /**
   * Two or more configurations are selected exactly when two configurations, at different
   * positions, have the requested type: equal configurations count once per occurrence.
   */
  lemma {:induction false} MatchingTwice(kind: SerializerType, configs: seq<ServiceConfig>)
    ensures |Matching(kind, configs)| >= 2 <==> TwoOf(kind, configs)
  {
    if configs != [] {
      var init := configs[..|configs| - 1];
      MatchingSnoc(kind, configs);
      MatchingTwice(kind, init);
      MatchingNone(kind, init);
      TwoOfSnoc(kind, configs);
    }
  }

  /**
   * Exactly one configuration is selected when exactly one position has the requested type,
   * and then it is that position's configuration.
   */
  lemma MatchingSingle(kind: SerializerType, configs: seq<ServiceConfig>)
    ensures |Matching(kind, configs)| == 1 <==>
      && (exists i :: 0 <= i < |configs| && IsOf(kind, configs[i]))
      && !TwoOf(kind, configs)
    ensures |Matching(kind, configs)| == 1 ==>
      forall i :: 0 <= i < |configs| && IsOf(kind, configs[i]) ==> Matching(kind, configs)[0] == configs[i].config
  {
    MatchingNone(kind, configs);
    MatchingTwice(kind, configs);
    var r := Matching(kind, configs);
    if |r| == 1 {
      forall i | 0 <= i < |configs| && IsOf(kind, configs[i]) ensures r[0] == configs[i].config {
        assert SerializerConfiguration(r[0]) in configs;
        var j :| 0 <= j < |configs| && configs[j] == SerializerConfiguration(r[0]);
        if j < i {
          assert IsOf(kind, configs[j]);
        } else if i < j {
          assert IsOf(kind, configs[j]);
        }
      }
    }
  }

  /** After the first `i` configurations, `find` holds the one configuration of type `kind` among them, if any, and there is at most one. */
  ghost predicate FindAt(kind: SerializerType, configs: seq<ServiceConfig>, i: nat, result: Option<SerializerConfig>)
  {
    && i <= |configs|
    && |Matching(kind, configs[..i])| <= 1
    && (result.None? <==> |Matching(kind, configs[..i])| == 0)
    && (result.Some? ==> Matching(kind, configs[..i]) == [result.value])
  }

  /** One step of `find`: a second configuration of type `kind` means two or more in all, anything else keeps `FindAt`. */
  lemma FindStep(kind: SerializerType, configs: seq<ServiceConfig>, i: nat, result: Option<SerializerConfig>)
    requires i < |configs| && FindAt(kind, configs, i, result)
    ensures IsOf(kind, configs[i]) && result.Some? ==> |Matching(kind, configs)| >= 2
    ensures IsOf(kind, configs[i]) ==> result.Some? || FindAt(kind, configs, i + 1, Some(configs[i].config))
    ensures !IsOf(kind, configs[i]) ==> FindAt(kind, configs, i + 1, result)
  {
    assert configs[..i + 1][..i] == configs[..i];
    MatchingSnoc(kind, configs[..i + 1]);
    if IsOf(kind, configs[i]) && result.Some? {
      MatchingGrows(kind, configs, i + 1);
    }
  }

  /** A longer prefix of the configurations has at least as many matching ones. */
  lemma {:induction false} MatchingGrows(kind: SerializerType, configs: seq<ServiceConfig>, i: nat)
    requires i <= |configs|
    ensures |Matching(kind, configs[..i])| <= |Matching(kind, configs)|
    decreases |configs|
  {
    if i < |configs| {
      var init := configs[..|configs| - 1];
      assert init[..i] == configs[..i];
      MatchingGrows(kind, init, i);
      MatchingSnoc(kind, configs);
    } else {
      assert configs[..i] == configs;
    }
  }

  // ---------------------------------------------------------------------------
  // Persistence space identifiers and routing
  // ---------------------------------------------------------------------------

  /** The persistence spaces named among `configs`, in order. */
  function Spaces(configs: seq<ServiceConfig>): (r: seq<nat>)
    ensures |r| == 0 <==> forall i :: 0 <= i < |configs| ==> !configs[i].PersistenceSpaceIdentifier?
    ensures |r| > 0 ==> exists i :: 0 <= i < |configs| && configs[i] == PersistenceSpaceIdentifier(r[0])
  {
    if configs == [] then []
    else
      var init, last := configs[..|configs| - 1], configs[|configs| - 1];
      var rest := Spaces(init);
      assert forall i :: 0 <= i < |init| ==> init[i] == configs[i];
      if last.PersistenceSpaceIdentifier? then rest + [last.space] else rest
  }

  /** The space of the persistence space identifier among `configs`, if there is one. */
  function SpaceOf(configs: seq<ServiceConfig>): Option<nat>
  {
    var spaces := Spaces(configs);
    if |spaces| > 0 then Some(spaces[0]) else None
  }

  /** The provider `createKeySerializer`/`createValueSerializer` hand the request to. */
  function Route(configs: seq<ServiceConfig>): (p: ProviderKind)
    ensures p == Persistent <==> exists i :: 0 <= i < |configs| && configs[i].PersistenceSpaceIdentifier?
  {
    if SpaceOf(configs).Some? then Persistent else Transient
  }

  // ---------------------------------------------------------------------------
  // Creating a serializer
  // ---------------------------------------------------------------------------

  /** The serializer class each provider registers for `Serializable` when it starts. */
  function DefaultSerializer(kind: ProviderKind): SerializerClass
  {
    match kind
    case Transient => CompactJavaSerializer
    case Persistent => CompactPersistentJavaSerializer
  }

  /** The name of the persistence context a persistent key or value serializer is created in. */
  function ContextName(kind: SerializerType): string
  {
    "DefaultSerializationProvider" + match kind case Key => "-Key" case Value => "-Value"
  }

  /**
   * What a provider's `createKeySerializer` (`kind == Key`) or `createValueSerializer`
   * (`kind == Value`) returns: the configuration of that type is found, the serializer class
   * chosen, and the serializer built; a persistent provider builds it in a persistence
   * context, and fails if no persistence service was bound when it started.
   */
  function Created(provider: ProviderKind, m: seq<Mapping>, persistence: Option<nat>, kind: SerializerType,
                   clazz: JavaClass, configs: seq<ServiceConfig>,
                   isAssignableFrom: (JavaClass, JavaClass) -> bool): (r: Result<Serializer, Error>)
    requires KeysDistinct(m)
    ensures r.Failure? && r.error == IllegalArgument <==> |Matching(kind, configs)| >= 2
    ensures r.Success? ==> r.value.payload == clazz
    ensures r.Success? ==> (r.value.context.Some? <==> provider == Persistent)
  {
    match Selected(kind, configs)
    case Failure(e) => Failure(e)
    case Success(config) =>
      match ClassFor(m, clazz, config, isAssignableFrom)
      case Failure(e) => Failure(e)
      case Success(s) =>
        if provider == Transient then Success(Serializer(s, clazz, None))
        else if persistence.None? then Failure(NullPointer)
        else
          var context := PersistenceContext(SpaceOf(configs), ContextName(kind));
          assert provider == Persistent;
          Success(Serializer(s, clazz, Some(context)))
  }

  /** The configurations without the serializer configurations of type `kind`. */
  function Drop(kind: SerializerType, configs: seq<ServiceConfig>): (r: seq<ServiceConfig>)
    ensures forall c :: c in r <==> c in configs && !(c.SerializerConfiguration? && c.config.kind == kind)
  {
    if configs == [] then []
    else
      var rest := Drop(kind, configs[..|configs| - 1]);
      var last := configs[|configs| - 1];
      assert forall c :: c in configs <==> c in configs[..|configs| - 1] || c == last;
      if last.SerializerConfiguration? && last.config.kind == kind then rest else rest + [last]
  }

  /** Removing the configurations of the other type leaves those of type `kind` as they were. */
  lemma {:induction false} DropKeepsMatching(kind: SerializerType, other: SerializerType, configs: seq<ServiceConfig>)
    requires kind != other
    ensures Matching(kind, Drop(other, configs)) == Matching(kind, configs)
  {
    if configs != [] {
      var init, last := configs[..|configs| - 1], configs[|configs| - 1];
      DropKeepsMatching(kind, other, init);
      var d := Drop(other, init);
      if !(last.SerializerConfiguration? && last.config.kind == other) {
        assert (d + [last])[..|d + [last]| - 1] == d;
      }
    }
  }

  /** Removing serializer configurations leaves the persistence spaces as they were. */
  lemma {:induction false} DropKeepsSpaces(other: SerializerType, configs: seq<ServiceConfig>)
    ensures Spaces(Drop(other, configs)) == Spaces(configs)
  {
    if configs != [] {
      var init, last := configs[..|configs| - 1], configs[|configs| - 1];
      DropKeepsSpaces(other, init);
      var d := Drop(other, init);
      if !(last.SerializerConfiguration? && last.config.kind == other) {
        assert (d + [last])[..|d + [last]| - 1] == d;
      }
    }
  }

  /**
   * A key serializer depends on the KEY configuration only, and a value serializer on the
   * VALUE configuration only: configurations of the other type make no difference.
   */
  lemma SerializerIgnoresOtherType(provider: ProviderKind, m: seq<Mapping>, persistence: Option<nat>,
                                   kind: SerializerType, clazz: JavaClass, configs: seq<ServiceConfig>,
                                   isAssignableFrom: (JavaClass, JavaClass) -> bool)
    requires KeysDistinct(m)
    ensures var other := if kind == Key then Value else Key;
      Created(provider, m, persistence, kind, clazz, Drop(other, configs), isAssignableFrom) ==
      Created(provider, m, persistence, kind, clazz, configs, isAssignableFrom)
  {
    var other := if kind == Key then Value else Key;
    var configs' := Drop(other, configs);
    DropKeepsMatching(kind, other, configs);
    DropKeepsSpaces(other, configs);
    assert Selected(kind, configs') == Selected(kind, configs);
    assert SpaceOf(configs') == SpaceOf(configs);
  }

  // ---------------------------------------------------------------------------
  // The default registration at start
  // ---------------------------------------------------------------------------

  /** The map after `start`: a `Serializable` registration is added unless one exists. */
  function WithDefault(m: seq<Mapping>, s: SerializerClass): seq<Mapping>
  {
    if Get(m, SerializableClass).Some? then m else m + [Mapping(SerializableClass, s)]
  }

  /**
   * `start` keeps a user registration for `Serializable`, adds the default otherwise, leaves
   * every other key's registration and the existing order alone, and keeps keys distinct.
   */
  lemma StartRegistersDefault(m: seq<Mapping>, s: SerializerClass, k: JavaClass)
    requires KeysDistinct(m)
    ensures KeysDistinct(WithDefault(m, s))
    ensures WithDefault(m, s)[..|m|] == m
    ensures Get(WithDefault(m, s), SerializableClass) ==
      if Get(m, SerializableClass).Some? then Get(m, SerializableClass) else Some(s)
    ensures k != SerializableClass ==> Get(WithDefault(m, s), k) == Get(m, k)
  {
    DefaultKeepsKeysDistinct(m, s);
    GetAppend(m, Mapping(SerializableClass, s), SerializableClass);
    GetAppend(m, Mapping(SerializableClass, s), k);
  }

  /** The default is only added when no entry has its key, so keys stay distinct. */
  lemma DefaultKeepsKeysDistinct(m: seq<Mapping>, s: SerializerClass)
    requires KeysDistinct(m)
    ensures KeysDistinct(WithDefault(m, s))
  {
    if Get(m, SerializableClass).None? {
      var m' := m + [Mapping(SerializableClass, s)];
      forall i, j | 0 <= i < j < |m'| ensures m'[i].key != m'[j].key {
        if j < |m| {
          assert m'[i] == m[i] && m'[j] == m[j];
        }
      }
    }
  }

  /** Starting again changes nothing, whichever default the second start would register. */
  lemma StartIdempotent(m: seq<Mapping>, s: SerializerClass, s': SerializerClass)
    ensures WithDefault(WithDefault(m, s), s') == WithDefault(m, s)
  {
    GetAppend(m, Mapping(SerializableClass, s), SerializableClass);
  }

  // ---------------------------------------------------------------------------
  // The providers
  // ---------------------------------------------------------------------------

  /** A `TransientProvider` or a `PersistentProvider`: its own copy of the registrations and, once started, the persistence service. */
  class Provider {
    const kind: ProviderKind
    var serializers: seq<Mapping>
    var persistence: Option<nat>

    ghost predicate Valid()
      reads this
    {
      KeysDistinct(serializers)
    }

    /** The provider takes its own copy of the configured registrations, in their order. */
    constructor (kind: ProviderKind, configured: seq<Mapping>)
      requires KeysDistinct(configured)
      ensures Valid()
      ensures this.kind == kind && serializers == configured && persistence == None
    {
      this.kind := kind;
      serializers := configured;
      persistence := None;
    }

    /**
     * `start`: registers the provider's default serializer for `Serializable` unless the map
     * has one; a persistent provider also binds the persistence service it is given.
     */
    method Start(service: Option<nat>)
      requires Valid()
      modifies this
      ensures Valid()
      ensures serializers == WithDefault(old(serializers), DefaultSerializer(kind))
      ensures persistence == if kind == Persistent then service else old(persistence)
    {
      StartRegistersDefault(serializers, DefaultSerializer(kind), SerializableClass);
      if kind == Persistent {
        persistence := service;
      }
      if Get(serializers, SerializableClass).None? {
        serializers := serializers + [Mapping(SerializableClass, DefaultSerializer(kind))];
      }
    }

    /** `getClassFor`, scanning the map in insertion order. */
    method GetClassFor(clazz: JavaClass, config: Option<SerializerConfig>,
                       isAssignableFrom: (JavaClass, JavaClass) -> bool) returns (r: Result<SerializerClass, Error>)
      requires Valid()
      ensures r == ClassFor(serializers, clazz, config, isAssignableFrom)
    {
      if config.Some? && config.value.clazz.Some? {
        return Success(config.value.clazz.value);
      }
      var direct := Get(serializers, clazz);
      if direct.Some? {
        return Success(direct.value);
      }
      var i := 0;
      while i < |serializers|
        invariant 0 <= i <= |serializers|
        invariant forall j :: 0 <= j < i ==> !isAssignableFrom(serializers[j].key, clazz)
      {
        if isAssignableFrom(serializers[i].key, clazz) {
          return Success(serializers[i].serializer);
        }
        i := i + 1;
      }
      r := Failure(UnsupportedType(clazz));
    }

    /** `createKeySerializer` (`kind == Key`) or `createValueSerializer` (`kind == Value`) of this provider. */
    method CreateSerializer(kind: SerializerType, clazz: JavaClass, configs: seq<ServiceConfig>,
                            isAssignableFrom: (JavaClass, JavaClass) -> bool) returns (r: Result<Serializer, Error>)
      requires Valid()
      ensures r == Created(this.kind, serializers, persistence, kind, clazz, configs, isAssignableFrom)
    {
      var found := Find(kind, configs);
      if found.Failure? {
        return Failure(found.error);
      }
      var klazz := GetClassFor(clazz, found.value, isAssignableFrom);
      if klazz.Failure? {
        return Failure(klazz.error);
      }
      if this.kind == Transient {
        r := Success(Serializer(klazz.value, clazz, None));
      } else if persistence.None? {
        r := Failure(NullPointer);
      } else {
        r := Success(Serializer(klazz.value, clazz, Some(PersistenceContext(SpaceOf(configs), ContextName(kind)))));
      }
    }
  }

  /** The `DefaultSerializationProvider`: a transient and a persistent provider, and the routing between them. */
  class DefaultSerializationProvider {
    const transientProvider: Provider
    const persistentProvider: Provider

    ghost predicate Valid()
      reads this, transientProvider, persistentProvider
    {
      && transientProvider != persistentProvider
      && transientProvider.kind == Transient && persistentProvider.kind == Persistent
      && transientProvider.Valid() && persistentProvider.Valid()
    }

    /** Each provider copies its registrations from the configuration; without one both start empty. */
    constructor (configuration: Option<ProviderConfiguration>)
      requires configuration.Some? ==>
        KeysDistinct(configuration.value.transientSerializers) && KeysDistinct(configuration.value.persistentSerializers)
      ensures Valid() && fresh(transientProvider) && fresh(persistentProvider)
      ensures transientProvider.serializers ==
        if configuration.Some? then configuration.value.transientSerializers else []
      ensures persistentProvider.serializers ==
        if configuration.Some? then configuration.value.persistentSerializers else []
      ensures transientProvider.persistence == None && persistentProvider.persistence == None
    {
      if configuration.Some? {
        transientProvider := new Provider(Transient, configuration.value.transientSerializers);
        persistentProvider := new Provider(Persistent, configuration.value.persistentSerializers);
      } else {
        transientProvider := new Provider(Transient, []);
        persistentProvider := new Provider(Persistent, []);
      }
    }

    /** `start`: starts the transient provider, then the persistent one. */
    method Start(service: Option<nat>)
      requires Valid()
      modifies transientProvider, persistentProvider
      ensures Valid()
      ensures transientProvider.serializers ==
        WithDefault(old(transientProvider.serializers), CompactJavaSerializer)
      ensures persistentProvider.serializers ==
        WithDefault(old(persistentProvider.serializers), CompactPersistentJavaSerializer)
      ensures transientProvider.persistence == old(transientProvider.persistence)
      ensures persistentProvider.persistence == service
    {
      transientProvider.Start(service);
      persistentProvider.Start(service);
    }

    /** The provider a request with `configs` goes to. */
    function ProviderFor(configs: seq<ServiceConfig>): (p: Provider)
      reads this
      ensures p == if Route(configs) == Persistent then persistentProvider else transientProvider
    {
      if SpaceOf(configs).None? then transientProvider else persistentProvider
    }

    /**
     * `createKeySerializer`/`createValueSerializer`: handled by the persistent provider
     * exactly when a persistence space identifier is among `configs`, else by the transient one.
     */
    method CreateSerializer(kind: SerializerType, clazz: JavaClass, configs: seq<ServiceConfig>,
                            isAssignableFrom: (JavaClass, JavaClass) -> bool) returns (r: Result<Serializer, Error>)
      requires Valid()
      ensures var p := ProviderFor(configs);
        r == Created(Route(configs), p.serializers, p.persistence, kind, clazz, configs, isAssignableFrom)
    {
      if SpaceOf(configs).None? {
        r := transientProvider.CreateSerializer(kind, clazz, configs, isAssignableFrom);
      } else {
        r := persistentProvider.CreateSerializer(kind, clazz, configs, isAssignableFrom);
      }
    }
  }
}
