/**
 * The on-heap value holder that copies its value on the way in and on the way out: it
 * stores `copyForWrite` of the value it is given and hands out `copyForRead` of what it
 * stored. The copier is a pair of uninterpreted functions; times and counts are plain
 * integers, since nothing here does arithmetic on them.
 */
module HeapStore {
  import opened Results

  /** A `Copier`: the copy taken when a value is stored and the copy handed out when it is read. */
  datatype Copier<!V> = Copier(copyForWrite: V -> V, copyForRead: V -> V)

  datatype Error = NullPointerException(message: string)

  /** The expiration time of a mapping that never expires. */
  const NO_EXPIRE: int := -1

  /** The id of a value holder created without one. */
  const NO_ID: int := -1

  /** What any `Store.ValueHolder` shows: its id, its value, its times and its hit count. */
  datatype ValueHolder<V> = ValueHolder(id: int, value: Option<V>, creationTime: int, expirationTime: int,
                                        lastAccessTime: int, hits: int)

  class CopiedOnHeapValueHolder<V> {
    const id: int
    /** The value the holder was created with, before any copy. */
    ghost const original: V
    const copiedValue: V
    const valueCopier: Copier<V>
    const creationTime: int
    const expirationTime: int
    var lastAccessTime: int
    var hits: int

    /** The holder stores the write copy of the value it was created with, never the value itself. */
    ghost predicate Valid()
    {
      copiedValue == valueCopier.copyForWrite(original)
    }

    /**
     * The main constructor once its null checks have passed: the holder keeps the write copy
     * of `value`; as for every new value holder, it was last accessed when created and has
     * no hits yet.
     */
    constructor (id: int, value: V, creationTime: int, expirationTime: int, valueCopier: Copier<V>)
      ensures Valid() && original == value
      ensures this.id == id && this.creationTime == creationTime && this.expirationTime == expirationTime
      ensures this.valueCopier == valueCopier && copiedValue == valueCopier.copyForWrite(value)
      ensures lastAccessTime == creationTime && hits == 0
    {
      this.id := id;
      original := value;
      this.creationTime := creationTime;
      this.expirationTime := expirationTime;
      this.valueCopier := valueCopier;
      this.copiedValue := valueCopier.copyForWrite(value);
      lastAccessTime := creationTime;
      hits := 0;
    }

    /** `value()`: a read copy of the stored copy, that is, the read copy of the write copy of the original value. */
    function Value(): (r: V)
      requires Valid()
      ensures r == valueCopier.copyForRead(valueCopier.copyForWrite(original))
    {
      valueCopier.copyForRead(copiedValue)
    }

    /** The holder as any `Store.ValueHolder` shows it. */
    function View(): (h: ValueHolder<V>)
      requires Valid()
      reads this
      ensures h.value == Some(Value())
    {
      ValueHolder(id, Some(Value()), creationTime, expirationTime, lastAccessTime, hits)
    }

    /**
     * `new CopiedOnHeapValueHolder(id, value, creationTime, expirationTime, copier)`: a null
     * value is refused first, then a null copier; otherwise the holder hands out read copies
     * of the write copy of `value`.
     */
    static method Create(id: int, value: Option<V>, creationTime: int, expirationTime: int,
                         valueCopier: Option<Copier<V>>) returns (r: Result<CopiedOnHeapValueHolder<V>, Error>)
      ensures value.None? ==> r == Failure(NullPointerException("null value"))
      ensures value.Some? && valueCopier.None? ==> r == Failure(NullPointerException("null copier"))
      ensures value.Some? && valueCopier.Some? ==>
        && r.Success? && fresh(r.value) && r.value.Valid()
        && r.value.original == value.value && r.value.copiedValue == valueCopier.value.copyForWrite(value.value)
        && r.value.View() == ValueHolder(id, Some(valueCopier.value.copyForRead(valueCopier.value.copyForWrite(value.value))),
                                         creationTime, expirationTime, creationTime, 0)
        && r.value.valueCopier == valueCopier.value
    {
      if value.None? {
        return Failure(NullPointerException("null value"));
      }
      if valueCopier.None? {
        return Failure(NullPointerException("null copier"));
      }
      var h := new CopiedOnHeapValueHolder(id, value.value, creationTime, expirationTime, valueCopier.value);
      r := Success(h);
    }

    /** `new CopiedOnHeapValueHolder(value, creationTime, expirationTime, copier)`: the holder has no id. */
    static method CreateWithoutId(value: Option<V>, creationTime: int, expirationTime: int,
                                  valueCopier: Option<Copier<V>>) returns (r: Result<CopiedOnHeapValueHolder<V>, Error>)
      ensures value.None? ==> r == Failure(NullPointerException("null value"))
      ensures value.Some? && valueCopier.None? ==> r == Failure(NullPointerException("null copier"))
      ensures value.Some? && valueCopier.Some? ==>
        && r.Success? && fresh(r.value) && r.value.Valid()
        && r.value.original == value.value && r.value.copiedValue == valueCopier.value.copyForWrite(value.value)
        && r.value.View() == ValueHolder(NO_ID, Some(valueCopier.value.copyForRead(valueCopier.value.copyForWrite(value.value))),
                                         creationTime, expirationTime, creationTime, 0)
        && r.value.valueCopier == valueCopier.value
    {
      r := Create(NO_ID, value, creationTime, expirationTime, valueCopier);
    }

    /** `new CopiedOnHeapValueHolder(value, creationTime, copier)`: the holder has no id and never expires. */
    static method CreateWithoutExpiry(value: Option<V>, creationTime: int,
                                      valueCopier: Option<Copier<V>>) returns (r: Result<CopiedOnHeapValueHolder<V>, Error>)
      ensures value.None? ==> r == Failure(NullPointerException("null value"))
      ensures value.Some? && valueCopier.None? ==> r == Failure(NullPointerException("null copier"))
      ensures value.Some? && valueCopier.Some? ==>
        && r.Success? && fresh(r.value) && r.value.Valid()
        && r.value.original == value.value && r.value.copiedValue == valueCopier.value.copyForWrite(value.value)
        && r.value.View() == ValueHolder(NO_ID, Some(valueCopier.value.copyForRead(valueCopier.value.copyForWrite(value.value))),
                                         creationTime, NO_EXPIRE, creationTime, 0)
        && r.value.valueCopier == valueCopier.value
    {
      r := CreateWithoutId(value, creationTime, NO_EXPIRE, valueCopier);
    }

    /**
     * `new CopiedOnHeapValueHolder(valueHolder, copier)`: a holder for the value `source`
     * shows, with the id, creation and expiration time, last access time and hits of `source`.
     */
    static method CopyOf(source: ValueHolder<V>, valueCopier: Option<Copier<V>>)
      returns (r: Result<CopiedOnHeapValueHolder<V>, Error>)
      ensures source.value.None? ==> r == Failure(NullPointerException("null value"))
      ensures source.value.Some? && valueCopier.None? ==> r == Failure(NullPointerException("null copier"))
      ensures source.value.Some? && valueCopier.Some? ==>
        && r.Success? && fresh(r.value) && r.value.Valid()
        && r.value.original == source.value.value && r.value.copiedValue == valueCopier.value.copyForWrite(source.value.value)
        && r.value.View() == source.(value := Some(valueCopier.value.copyForRead(valueCopier.value.copyForWrite(source.value.value))))
        && r.value.valueCopier == valueCopier.value
    {
      r := Create(source.id, source.value, source.creationTime, source.expirationTime, valueCopier);
      if r.Success? {
        r.value.lastAccessTime := source.lastAccessTime;
        r.value.hits := source.hits;
      }
    }
  }

}
