/**
 * ReferenceHandler: how a @Reference property is written (each referenced
 * entity replaced by its id, or by a DBRef to it) and how a loaded reference
 * is resolved back to entities through the shared entity cache, with one
 * batched query for a list of references.
 */
module ReferenceCodec {
  import opened Runtime
  import opened Reflection
  import Mapping

  // ---------------------------------------------------------------------
  // Encoding
  // ---------------------------------------------------------------------

  /** What encoding needs: @Reference(idOnly), the related class's id field and its collection name. */
  datatype RefSettings = RefSettings(idOnly: bool, idField: Option<MappedField>, collection: string)

  /**
   * `MappedField.getFieldValue`: the id field's value in an object. Calling it
   * on a missing id field or a null object throws NullPointerException;
   * reflection refuses a value that has no such field.
   */
  function FieldValue(f: Option<MappedField>, v: Value): Result<Value> {
    if f.None? || v.Null? then Err(NullPointer)
    else if v.Obj? && f.value.javaFieldName in v.fields then Ok(v.fields[f.value.javaFieldName])
    else Err(IllegalArgument)
  }

  /** The id a referenced value stands for: a Key's id, else the value of the related class's id field. */
  function IdOf(v: Value, idField: Option<MappedField>): Result<Value> {
    if v.Key? then Ok(v.id) else FieldValue(idField, v)
  }

  /**
   * `encodeId`: the id, wrapped in DBRef(collection of the related class, id)
   * unless the reference is idOnly; decoding it with `extractId` gives the id back.
   */
  function EncodeId(v: Value, s: RefSettings): (r: Result<Value>)
    ensures r.Ok? <==> IdOf(v, s.idField).Ok?
    ensures r.Err? ==> r.error == IdOf(v, s.idField).error
    ensures r.Ok? ==> ExtractId(r.value, s.idOnly) == IdOf(v, s.idField)
    ensures r.Ok? && !s.idOnly ==> r.value.DBRef? && r.value.collection == s.collection
  {
    var id :- IdOf(v, s.idField);
    Ok(if s.idOnly then id else DBRef(s.collection, id))
  }

  /**
   * `extractId`: the stored value itself when the reference is idOnly; otherwise
   * the id of the DBRef it must be (a null throws on `getId`, anything else fails the cast).
   */
  function ExtractId(o: Value, idOnly: bool): (r: Result<Value>)
    ensures r.Ok? <==> idOnly || o.DBRef?
    ensures !idOnly && o.Null? ==> r == Err(NullPointer)
  {
    if idOnly then Ok(o)
    else if o.DBRef? then Ok(o.id)
    else if o.Null? then Err(NullPointer)
    else Err(ClassCast)
  }

  /** The values of a list of outcomes in order, or the first failure among them. */
  function AllOk(rs: seq<Result<Value>>): (r: Result<seq<Value>>)
    ensures r.Ok? <==> forall i :: 0 <= i < |rs| ==> rs[i].Ok?
    ensures r.Ok? ==> |r.value| == |rs| && forall i :: 0 <= i < |rs| ==> rs[i] == Ok(r.value[i])
    decreases |rs|
  {
    if rs == [] then Ok([])
    else
      var prior := AllOk(rs[..|rs| - 1]);
      var last := rs[|rs| - 1];
      if prior.Err? then prior
      else if last.Err? then Err(last.error)
      else Ok(prior.value + [last.value])
  }

  ghost predicate IsFirstFailure(rs: seq<Result<Value>>, i: int) {
    0 <= i < |rs| && rs[i].Err? && forall j :: 0 <= j < i ==> rs[j].Ok?
  }

  /** A failing list reports its first failure: the exception of the earliest element that threw. */
  lemma {:induction false} AllOkFirstFailure(rs: seq<Result<Value>>, i: int)
    requires IsFirstFailure(rs, i)
    ensures AllOk(rs) == Err(rs[i].error)
    decreases |rs|
  {
    var init := rs[..|rs| - 1];
    if i < |rs| - 1 {
      assert IsFirstFailure(init, i);
      AllOkFirstFailure(init, i);
    } else {
      assert AllOk(init).Ok?;
    }
  }

  /**
   * `collectIdValues`: a collection or an array becomes a list of the same length
   * whose i-th entry encodes the i-th element; any other value becomes its encoded id.
   * A null element throws NullPointerException.
   */
  function CollectIdValues(v: Value, s: RefSettings): (r: Result<Value>)
    ensures !(v.Coll? || v.Arr?) ==> r == EncodeId(v, s)
    ensures (v.Coll? || v.Arr?) ==>
              (r.Ok? <==> forall i :: 0 <= i < |v.items| ==> CollectIdValues(v.items[i], s).Ok?)
    ensures (v.Coll? || v.Arr?) && r.Ok? ==>
              r.value.Coll? && |r.value.items| == |v.items|
              && forall i :: 0 <= i < |v.items| ==> CollectIdValues(v.items[i], s) == Ok(r.value.items[i])
    decreases v
  {
    if v.Coll? || v.Arr? then
      var rs := seq(|v.items|, i requires 0 <= i < |v.items| => CollectIdValues(v.items[i], s));
      assert forall i :: 0 <= i < |v.items| ==> rs[i] == CollectIdValues(v.items[i], s);
      var ids :- AllOk(rs);
      Ok(Coll(ids))
    else EncodeId(v, s)
  }

  /** `ids.add(extractId(o))` over a list: the ids in list order, or the first failure. */
  function ExtractIds(os: seq<Value>, idOnly: bool): (r: Result<seq<Value>>)
    ensures r.Ok? <==> forall i :: 0 <= i < |os| ==> ExtractId(os[i], idOnly).Ok?
    ensures r.Ok? ==> |r.value| == |os| && forall i :: 0 <= i < |os| ==> ExtractId(os[i], idOnly) == Ok(r.value[i])
  {
    var rs := seq(|os|, i requires 0 <= i < |os| => ExtractId(os[i], idOnly));
    assert forall i :: 0 <= i < |os| ==> rs[i] == ExtractId(os[i], idOnly);
    AllOk(rs)
  }

  /** Extraction over a list stops at the first element that is not a reference. */
  lemma ExtractIdsFirstFailure(os: seq<Value>, idOnly: bool, i: nat)
    requires i < |os| && ExtractId(os[i], idOnly).Err?
    requires forall j :: 0 <= j < i ==> ExtractId(os[j], idOnly).Ok?
    ensures ExtractIds(os, idOnly) == Err(ExtractId(os[i], idOnly).error)
  {
    var rs := seq(|os|, j requires 0 <= j < |os| => ExtractId(os[j], idOnly));
    assert IsFirstFailure(rs, i);
    AllOkFirstFailure(rs, i);
  }

  /**
   * Round trip for a list reference: extracting the ids from the encoded list
   * gives, position by position, the ids of the referenced entities.
   */
  lemma {:induction false} ListRoundTrip(v: Value, s: RefSettings)
    requires v.Coll? || v.Arr?
    requires forall i :: 0 <= i < |v.items| ==> !(v.items[i].Coll? || v.items[i].Arr?)
    requires CollectIdValues(v, s).Ok?
    ensures var ids := ExtractIds(CollectIdValues(v, s).value.items, s.idOnly);
            ids.Ok? && |ids.value| == |v.items|
            && forall i :: 0 <= i < |v.items| ==> IdOf(v.items[i], s.idField) == Ok(ids.value[i])
  {
    var enc := CollectIdValues(v, s).value.items;
    forall i | 0 <= i < |v.items|
      ensures ExtractId(enc[i], s.idOnly) == IdOf(v.items[i], s.idField)
    {
      assert CollectIdValues(v.items[i], s) == EncodeId(v.items[i], s);
    }
  }

  // ---------------------------------------------------------------------
  // Resolution through the entity cache
  // ---------------------------------------------------------------------

  /** The outcome of one `computeIfAbsent`: the value returned, the cache after, and whether the mapping function ran. */
  datatype CacheStep = CacheStep(result: Result<Value>, cache: map<Value, Value>, computed: bool)

  /**
   * `HashMap.computeIfAbsent`: a key mapped to a non-null value answers with it;
   * otherwise the mapping function's value is returned and stored, unless it is
   * null; an exception it throws leaves the map as it was.
   */
  function ComputeIfAbsent(cache: map<Value, Value>, k: Value, compute: Result<Value>): (st: CacheStep)
    ensures st.computed <==> Lookup(cache, k) == Null
    ensures !st.computed ==> st.result == Ok(Lookup(cache, k)) && st.cache == cache
    ensures st.computed ==> st.result == compute
    ensures st.result.Ok? ==> Lookup(st.cache, k) == st.result.value
    ensures st.result.Err? ==> st.cache == cache
    ensures forall key :: Lookup(cache, key) != Null ==> Lookup(st.cache, key) == Lookup(cache, key)
    ensures forall key :: key != k ==> Lookup(st.cache, key) == Lookup(cache, key)
  {
    if Lookup(cache, k) != Null then CacheStep(Ok(cache[k]), cache, false)
    else if compute.Err? then CacheStep(compute, cache, true)
    else if compute.value == Null then CacheStep(compute, cache, true)
    else CacheStep(compute, cache[k := compute.value], true)
  }

  /** What resolving a list produced: the values set so far, the cache, and the exception that stopped it. */
  datatype Resolution = Resolution(values: seq<Value>, cache: map<Value, Value>, failure: Option<Exception>)

  /** `entities.get(index)`: the batch result at a position, or IndexOutOfBoundsException. */
  function EntityAt(entities: seq<Value>, i: nat): Result<Value> {
    if i < |entities| then Ok(entities[i]) else Err(IndexOutOfBounds(i, |entities|))
  }

  /** One more id: resolved through the cache, an absent one bound to the batch entity at the same position. */
  function ResolveOne(prior: Resolution, k: Value, entities: seq<Value>): Resolution {
    if prior.failure.Some? then prior
    else
      var st := ComputeIfAbsent(prior.cache, k, EntityAt(entities, |prior.values|));
      if st.result.Err? then Resolution(prior.values, st.cache, Some(st.result.error))
      else Resolution(prior.values + [st.result.value], st.cache, None)
  }

  /** The resolving loop of `set`, position by position, stopping at the first exception. */
  function Resolve(cache: map<Value, Value>, ids: seq<Value>, entities: seq<Value>): (res: Resolution)
    ensures |res.values| <= |ids|
    ensures res.failure.None? ==> |res.values| == |ids|
    decreases |ids|
  {
    if ids == [] then Resolution([], cache, None)
    else ResolveOne(Resolve(cache, ids[..|ids| - 1], entities), ids[|ids| - 1], entities)
  }

  lemma ResolveStep(cache: map<Value, Value>, ids: seq<Value>, i: nat, entities: seq<Value>)
    requires i < |ids|
    ensures Resolve(cache, ids[..i + 1], entities) == ResolveOne(Resolve(cache, ids[..i], entities), ids[i], entities)
  {
    assert ids[..i + 1][..i] == ids[..i];
  }

  /** Once a position has thrown, the later ones are not resolved: the whole run ends the same way. */
  lemma {:induction false} FailureStopsResolve(cache: map<Value, Value>, ids: seq<Value>, n: nat, entities: seq<Value>)
    requires n <= |ids|
    requires Resolve(cache, ids[..n], entities).failure.Some?
    ensures Resolve(cache, ids, entities) == Resolve(cache, ids[..n], entities)
    decreases |ids| - n
  {
    if n < |ids| {
      var init := ids[..|ids| - 1];
      assert init[..n] == ids[..n];
      FailureStopsResolve(cache, init, n, entities);
    } else {
      assert ids[..n] == ids;
    }
  }

  /** The values set for a prefix of the ids are a prefix of the values set for all of them. */
  lemma {:induction false} ResolvePrefix(cache: map<Value, Value>, ids: seq<Value>, n: nat, entities: seq<Value>)
    requires n <= |ids|
    ensures Resolve(cache, ids[..n], entities).values <= Resolve(cache, ids, entities).values
    decreases |ids| - n
  {
    if n < |ids| {
      var init := ids[..|ids| - 1];
      assert init[..n] == ids[..n];
      ResolvePrefix(cache, init, n, entities);
    } else {
      assert ids[..n] == ids;
    }
  }

  /** Entries already in the cache are never overwritten. */
  lemma {:induction false} ResolveNeverOverwrites(cache: map<Value, Value>, ids: seq<Value>, entities: seq<Value>)
    ensures forall k :: Lookup(cache, k) != Null ==> Lookup(Resolve(cache, ids, entities).cache, k) == Lookup(cache, k)
    decreases |ids|
  {
    if ids != [] {
      ResolveNeverOverwrites(cache, ids[..|ids| - 1], entities);
    }
  }

  /** Only the resolved ids can gain a cache entry. */
  lemma {:induction false} ResolveTouchesOnlyIds(cache: map<Value, Value>, ids: seq<Value>, entities: seq<Value>)
    ensures forall k :: k !in ids ==> Lookup(Resolve(cache, ids, entities).cache, k) == Lookup(cache, k)
    decreases |ids|
  {
    if ids != [] {
      var init := ids[..|ids| - 1];
      ResolveTouchesOnlyIds(cache, init, entities);
      assert forall k :: k in init ==> k in ids;
    }
  }

  /**
   * With a batch result free of nulls, every position set holds exactly what the
   * cache holds for its id afterwards (`list[i] == entityCache[ids[i]]`).
   */
  lemma {:induction false} ResolveValuesCached(cache: map<Value, Value>, ids: seq<Value>, entities: seq<Value>)
    requires forall i :: 0 <= i < |entities| ==> entities[i] != Null
    ensures var res := Resolve(cache, ids, entities);
            forall i :: 0 <= i < |res.values| ==> res.values[i] != Null && Lookup(res.cache, ids[i]) == res.values[i]
    decreases |ids|
  {
    if ids != [] {
      var init := ids[..|ids| - 1];
      ResolveValuesCached(cache, init, entities);
      var prior := Resolve(cache, init, entities);
      assert forall i :: 0 <= i < |prior.values| ==> init[i] == ids[i];
    }
  }

  /** Repeated ids in one list resolve to the same instance. */
  lemma RepeatedIdsShareInstance(cache: map<Value, Value>, ids: seq<Value>, entities: seq<Value>, i: nat, j: nat)
    requires forall n :: 0 <= n < |entities| ==> entities[n] != Null
    requires i < j < |Resolve(cache, ids, entities).values| && ids[i] == ids[j]
    ensures Resolve(cache, ids, entities).values[i] == Resolve(cache, ids, entities).values[j]
  {
    ResolveValuesCached(cache, ids, entities);
  }

  /**
   * An id absent from the cache, at its first occurrence, is bound to the batch
   * entity at the same position, whatever that entity's own id is.
   */
  lemma FirstOccurrenceBindsByPosition(cache: map<Value, Value>, ids: seq<Value>, entities: seq<Value>, i: nat)
    requires i < |Resolve(cache, ids, entities).values|
    requires Lookup(cache, ids[i]) == Null
    requires forall j :: 0 <= j < i ==> ids[j] != ids[i]
    ensures i < |entities| && Resolve(cache, ids, entities).values[i] == entities[i]
  {
    var pre := Resolve(cache, ids[..i], entities);
    if pre.failure.Some? {
      FailureStopsResolve(cache, ids, i, entities);
      assert false;
    }
    ResolveTouchesOnlyIds(cache, ids[..i], entities);
    assert ids[i] !in ids[..i];
    ResolveStep(cache, ids, i, entities);
    if i >= |entities| {
      FailureStopsResolve(cache, ids, i + 1, entities);
      assert false;
    }
    ResolvePrefix(cache, ids, i + 1, entities);
  }

  /**
   * The batch query returns each matching document once, so a list naming one
   * entity twice overruns a shorter batch result: here the third position reads
   * index 2 of a two-entity result.
   */
  lemma DuplicateIdsOverrunBatch(a: Value, b: Value, ea: Value, eb: Value)
    requires a != b && ea != Null && eb != Null
    ensures Resolve(map[], [a, a, b], [ea, eb]).failure == Some(IndexOutOfBounds(2, 2))
  {
    var ids := [a, a, b];
    var entities := [ea, eb];
    var r0 := Resolve(map[], ids[..0], entities);
    assert r0 == Resolution([], map[], None);
    ResolveStep(map[], ids, 0, entities);
    var r1 := Resolve(map[], ids[..1], entities);
    assert r1 == Resolution([ea], map[a := ea], None);
    ResolveStep(map[], ids, 1, entities);
    var r2 := Resolve(map[], ids[..2], entities);
    assert r2 == Resolution([ea, ea], map[a := ea], None);
    ResolveStep(map[], ids, 2, entities);
    assert ids[..3] == ids;
  }

  // ---------------------------------------------------------------------
  // The cache and the handler as objects
  // ---------------------------------------------------------------------

  /** The shared `Map<Object, Object> entityCache` of one load. */
  class EntityCache {
    var entries: map<Value, Value>

    constructor ()
      ensures entries == map[]
    {
      entries := map[];
    }

    /** `computeIfAbsent(k, ignored -> compute)`; `compute` is consulted only when the key is absent. */
    method ComputeIfAbsentOf(k: Value, compute: Result<Value>) returns (r: Result<Value>, computed: bool)
      modifies this
      ensures CacheStep(r, entries, computed) == ComputeIfAbsent(old(entries), k, compute)
    {
      if k in entries && entries[k] != Null {
        return Ok(entries[k]), false;
      }
      computed := true;
      r := compute;
      if compute.Ok? && compute.value != Null {
        entries := entries[k := compute.value];
      }
    }
  }

  /** A query the handler sends to the referenced collection. */
  datatype Query = FindIn(ids: seq<Value>) | FindEq(id: Value)

  /** What `set` stores into the property: the list updated in place, the batch result, or one entity. */
  datatype Assigned = InPlace(list: array<Value>) | Batch(entities: seq<Value>) | Entity(value: Value)

  /** What `encodeProperty` hands the BSON writer. */
  datatype Token = WriteNull(name: string) | WriteName(name: string) | WriteValue(value: Value)

  class ReferenceHandler {
    /** `annotation.idOnly()` of the field's @Reference. */
    const idOnly: bool
    /** `getFieldMappedClass()`: the descriptor of the referenced type. */
    const fieldMappedClass: Mapping.MappedClass
    /** The referenced type's id field, fetched on first use. */
    var idField: Option<MappedField>

    constructor (idOnly: bool, fieldMappedClass: Mapping.MappedClass)
      ensures this.idOnly == idOnly && this.fieldMappedClass == fieldMappedClass && idField == None
    {
      this.idOnly := idOnly;
      this.fieldMappedClass := fieldMappedClass;
      idField := None;
    }

    /** `getIdField`: fetched from the referenced type while it is null, then kept. */
    method GetIdField() returns (f: Option<MappedField>)
      modifies this`idField
      ensures old(idField).Some? ==> f == old(idField)
      ensures old(idField).None? ==> f == fieldMappedClass.idField
      ensures idField == f
    {
      if idField.None? {
        idField := fieldMappedClass.idField;
      }
      f := idField;
    }

    /** `encodeValue`: the value with every referenced entity replaced by its id or DBRef. */
    method EncodeValue(value: Value) returns (r: Result<Value>)
      requires fieldMappedClass.Valid()
      modifies this`idField
      ensures old(idField).Some? ==> idField == old(idField)
      ensures old(idField).None? ==> idField == fieldMappedClass.idField
      ensures r == CollectIdValues(value, RefSettings(idOnly, idField, fieldMappedClass.GetCollectionName()))
    {
      var f := GetIdField();
      r := CollectIdValues(value, RefSettings(idOnly, f, fieldMappedClass.GetCollectionName()));
    }

    /**
     * `encodeProperty`: nothing when the property is not to be serialised, a null
     * for a null value, else the name followed by the encoded value (the name is
     * already written when encoding throws, or when the encoded id is null and no
     * codec can be looked up for it).
     */
    method EncodeProperty(value: Value, shouldSerialize: bool, readName: string)
      returns (tokens: seq<Token>, outcome: Result<()>)
      requires fieldMappedClass.Valid()
      modifies this`idField
      ensures !shouldSerialize ==> tokens == [] && outcome == Ok(()) && idField == old(idField)
      ensures shouldSerialize && value == Null ==> tokens == [WriteNull(readName)] && outcome == Ok(())
      ensures !(shouldSerialize && value != Null) ==> idField == old(idField)
      ensures shouldSerialize && value != Null && old(idField).Some? ==> idField == old(idField)
      ensures shouldSerialize && value != Null && old(idField).None? ==> idField == fieldMappedClass.idField
      ensures shouldSerialize && value != Null ==>
                var enc := CollectIdValues(value, RefSettings(idOnly, idField, fieldMappedClass.GetCollectionName()));
                (enc.Ok? && enc.value != Null ==> tokens == [WriteName(readName), WriteValue(enc.value)] && outcome == Ok(()))
                && (enc.Ok? && enc.value == Null ==> tokens == [WriteName(readName)] && outcome == Err(NullPointer))
                && (enc.Err? ==> tokens == [WriteName(readName)] && outcome == Err(enc.error))
    {
      tokens := [];
      outcome := Ok(());
      if shouldSerialize {
        if value == Null {
          tokens := [WriteNull(readName)];
        } else {
          tokens := [WriteName(readName)];
          var idValue := EncodeValue(value);
          if idValue.Err? {
            return tokens, Err(idValue.error);
          }
          if idValue.value == Null {
            // the codec registry is asked for the class of a null id
            return tokens, Err(NullPointer);
          }
          tokens := tokens + [WriteValue(idValue.value)];
        }
      }
    }

    /**
     * `set` for a list reference: extract every id, run one batched `_id in ids`
     * query, then overwrite each position with the cached entity, binding an
     * absent id to the batch entity at the same position. The property becomes
     * the batch result unless it is shorter than the list.
     */
    method SetList(list: array<Value>, cache: EntityCache, batch: seq<Value> -> seq<Value>)
      returns (outcome: Result<Assigned>, queries: seq<Query>)
      modifies list, cache
      ensures var ex := ExtractIds(old(list[..]), idOnly);
              ex.Err? ==> outcome == Err(ex.error) && queries == []
                          && list[..] == old(list[..]) && cache.entries == old(cache.entries)
      ensures var ex := ExtractIds(old(list[..]), idOnly);
              ex.Ok? ==>
                var entities := batch(ex.value);
                var res := Resolve(old(cache.entries), ex.value, entities);
                queries == [FindIn(ex.value)]
                && cache.entries == res.cache
                && (forall j :: 0 <= j < list.Length ==>
                      list[j] == if j < |res.values| then res.values[j] else old(list[j]))
                && (res.failure.Some? ==> outcome == Err(res.failure.value))
                && (res.failure.None? ==>
                      outcome == Ok(if |entities| < list.Length then InPlace(list) else Batch(entities)))
    {
      var ex := ExtractListIds(list);
      if ex.Err? {
        return Err(ex.error), [];
      }
      var ids := ex.value;
      var entities := batch(ids);
      queries := [FindIn(ids)];
      var failure := ResolveInto(list, ids, entities, cache);
      if failure.Some? {
        return Err(failure.value), queries;
      }
      if |entities| < list.Length {
        outcome := Ok(InPlace(list));
      } else {
        outcome := Ok(Batch(entities));
      }
    }

    /** The first loop of `set`: the id of every list element, in order. */
    method ExtractListIds(list: array<Value>) returns (ex: Result<seq<Value>>)
      ensures ex == ExtractIds(list[..], idOnly)
    {
      var ids: seq<Value> := [];
      for i := 0 to list.Length
        invariant |ids| == i
        invariant forall j :: 0 <= j < i ==> ExtractId(list[j], idOnly) == Ok(ids[j])
      {
        var id := ExtractId(list[i], idOnly);
        if id.Err? {
          ExtractIdsFirstFailure(list[..], idOnly, i);
          return Err(id.error);
        }
        ids := ids + [id.value];
      }
      assert ExtractIds(list[..], idOnly).value == ids;
      ex := Ok(ids);
    }

    /** The second loop of `set`: `list.set(i, entityCache.computeIfAbsent(ids[i], k -> entities.get(i)))`. */
    static method ResolveInto(list: array<Value>, ids: seq<Value>, entities: seq<Value>, cache: EntityCache)
      returns (failure: Option<Exception>)
      requires list.Length == |ids|
      modifies list, cache
      ensures var res := Resolve(old(cache.entries), ids, entities);
              failure == res.failure && cache.entries == res.cache
              && forall j :: 0 <= j < list.Length ==> list[j] == if j < |res.values| then res.values[j] else old(list[j])
    {
      ghost var cache0 := cache.entries;
      assert ids[..0] == [];
      for i := 0 to |ids|
        invariant Resolution(list[..i], cache.entries, None) == Resolve(cache0, ids[..i], entities)
        invariant forall j :: i <= j < list.Length ==> list[j] == old(list[j])
      {
        ResolveStep(cache0, ids, i, entities);
        var r, _ := cache.ComputeIfAbsentOf(ids[i], EntityAt(entities, i));
        if r.Err? {
          FailureStopsResolve(cache0, ids, i + 1, entities);
          return Some(r.error);
        }
        list[i] := r.value;
        assert list[..i + 1] == list[..i] + [r.value];
      }
      assert ids[..|ids|] == ids;
      failure := None;
    }

    /**
     * `set` for a single reference: extract the id, then take the cached entity,
     * querying `_id == id` only when the id is not cached yet.
     */
    method SetSingle(value: Value, cache: EntityCache, db: map<Value, Value>)
      returns (outcome: Result<Assigned>, queries: seq<Query>)
      modifies cache
      ensures var ex := ExtractId(value, idOnly);
              ex.Err? ==> outcome == Err(ex.error) && queries == [] && cache.entries == old(cache.entries)
      ensures var ex := ExtractId(value, idOnly);
              ex.Ok? ==>
                var st := ComputeIfAbsent(old(cache.entries), ex.value, Ok(Lookup(db, ex.value)));
                cache.entries == st.cache && outcome == Ok(Entity(st.result.value))
                && queries == (if st.computed then [FindEq(ex.value)] else [])
    {
      var id := ExtractId(value, idOnly);
      if id.Err? {
        return Err(id.error), [];
      }
      var r, computed := cache.ComputeIfAbsentOf(id.value, Ok(Lookup(db, id.value)));
      queries := if computed then [FindEq(id.value)] else [];
      outcome := Ok(Entity(r.value));
    }
  }
}
