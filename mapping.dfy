/**
 * MappedClass as an object: discovery fills its fields step by step, the
 * queries read them, and lifecycle dispatch runs the registered methods,
 * creating listener instances through the Mapper's cache on first use.
 */
module Mapping {
  import opened Runtime
  import opened Reflection
  import opened MappedClassModel

  /** The part of the Mapper this core uses: options, global interceptors and the listener-instance cache. */
  class Mapper {
    const options: MapperOptions
    const interceptors: seq<Interceptor>
    var instanceCache: map<JClass, Value>
    /** The object factory's next unused object identity. */
    var nextOid: nat

    ghost predicate Valid()
      reads this
    {
      forall c :: c in instanceCache ==> instanceCache[c].Obj? && instanceCache[c].oid < nextOid
    }

    constructor (options: MapperOptions, interceptors: seq<Interceptor>)
      ensures Valid()
      ensures this.options == options && this.interceptors == interceptors
      ensures instanceCache == map[] && nextOid == 0
    {
      this.options := options;
      this.interceptors := interceptors;
      instanceCache := map[];
      nextOid := 0;
    }
  }

  /** A type the mapper refuses: a member class that is not static. */
  predicate IsNonStaticMember(clazz: JClass) {
    !clazz.isStatic && clazz.isMemberClass
  }

  /** The superclass `discover` records: none for a root class or a direct subclass of Object. */
  function DiscoveredSuperClass(clazz: JClass): Option<JClass> {
    if clazz.superclass.Some? && clazz.superclass.value.name != ObjectClassName then clazz.superclass else None
  }

  /** The first field of a list that carries annotation `k`, or null. */
  function FirstAnnotated(fs: seq<MappedField>, k: Kind): Option<MappedField> {
    var found := AnnotatedWith(fs, k);
    if found == [] then None else Some(found[0])
  }

  class MappedClass {
    const classModel: ClassModel
    /** `type`: the mapped Java class. */
    const clazz: JClass
    const mapperOptions: MapperOptions
    var annotations: map<Kind, seq<Annotation>>
    var lifecycleMethods: LifecycleTable
    var persistenceFields: seq<MappedField>
    var idField: Option<MappedField>
    var entityAn: Option<Annotation>
    var embeddedAn: Option<Annotation>
    /** The types of the superclass and interface descriptors (MappedClass equality is by type). */
    var superClass: Option<JClass>
    var interfaces: seq<JClass>

    /** The state discovery leaves: every field is the function of the class model that the source computes. */
    ghost predicate Valid()
      reads this
    {
      && clazz == classModel.clazz
      && annotations == GroupByKind(classModel.annotations)
      && superClass == DiscoveredSuperClass(clazz)
      && interfaces == clazz.interfaces
      && lifecycleMethods == DiscoveredTable(classModel)
      && persistenceFields == PersistentFields(clazz.name, classModel.fieldModels)
      && embeddedAn == LastOfKind(classModel.annotations, EmbeddedKind)
      && entityAn == FirstOfKind(classModel.annotations, EntityKind)
      && idField == FirstAnnotated(persistenceFields, IdKind)
    }

    /** `new MappedClass(classModel, mapper)`: refuses a non-static member class, else discovers. */
    static method Create(classModel: ClassModel, mapper: Mapper) returns (r: Result<MappedClass>)
      ensures r.Err? <==> IsNonStaticMember(classModel.clazz)
      ensures r.Err? ==> r.error.Mapping?
      ensures r.Ok? ==> fresh(r.value) && r.value.Valid() && r.value.classModel == classModel
                        && r.value.mapperOptions == mapper.options
    {
      if IsNonStaticMember(classModel.clazz) {
        return Err(Mapping("Cannot use non-static inner class: " + classModel.clazz.name + ". Please make static."));
      }
      var mc := new MappedClass(classModel, mapper);
      r := Ok(mc);
    }

    constructor (classModel: ClassModel, mapper: Mapper)
      requires !IsNonStaticMember(classModel.clazz)
      ensures Valid() && this.classModel == classModel && mapperOptions == mapper.options
    {
      this.classModel := classModel;
      clazz := classModel.clazz;
      mapperOptions := mapper.options;
      annotations := map[];
      lifecycleMethods := map[];
      persistenceFields := [];
      idField := None;
      entityAn := None;
      embeddedAn := None;
      superClass := None;
      interfaces := [];
      new;
      Discover();
    }

    /** `discover`: group annotations, record super types, register lifecycle methods, map fields, update. */
    method Discover()
      requires clazz == classModel.clazz
      requires lifecycleMethods == map[] && persistenceFields == [] && idField == None
      modifies this
      ensures clazz == classModel.clazz
      ensures annotations == GroupByKind(classModel.annotations)
      ensures superClass == DiscoveredSuperClass(clazz)
      ensures interfaces == clazz.interfaces
      ensures lifecycleMethods == DiscoveredTable(classModel)
      ensures persistenceFields == PersistentFields(clazz.name, classModel.fieldModels)
      ensures embeddedAn == LastOfKind(classModel.annotations, EmbeddedKind)
      ensures entityAn == FirstOfKind(classModel.annotations, EntityKind)
      ensures idField == FirstAnnotated(persistenceFields, IdKind)
    {
      annotations := GroupByKind(classModel.annotations);
      DiscoverSuperTypes();
      var lifecycleClasses := ListLifecycleClasses();
      RegisterLifecycleMethods(lifecycleClasses);
      DiscoverFields();
      Update();
      GetFirstAnnotationIsFirst(classModel.annotations, EntityKind);
    }

    /** The superclass (unless it is Object) and the directly implemented interfaces, in declaration order. */
    method DiscoverSuperTypes()
      modifies this`superClass, this`interfaces
      ensures superClass == DiscoveredSuperClass(clazz)
      ensures interfaces == clazz.interfaces
    {
      var superclass := clazz.superclass;
      if superclass.Some? && superclass.value.name != ObjectClassName {
        superClass := superclass;
      } else {
        superClass := None;
      }
      var found: seq<JClass> := [];
      for i := 0 to |clazz.interfaces|
        invariant found == clazz.interfaces[..i]
      {
        found := found + [clazz.interfaces[i]];
      }
      assert clazz.interfaces[..|clazz.interfaces|] == clazz.interfaces;
      interfaces := found;
    }

    /** The classes whose lifecycle methods `discover` registers: the type, then the listeners of @EntityListeners. */
    method ListLifecycleClasses() returns (lifecycleClasses: seq<JClass>)
      requires annotations == GroupByKind(classModel.annotations)
      ensures lifecycleClasses == LifecycleClasses(clazz, classModel.annotations)
    {
      lifecycleClasses := [clazz];
      var entityLisAnn := LastInGroup(annotations, EntityListenersKind);
      GetAnnotationIsLast(classModel.annotations, EntityListenersKind);
      if entityLisAnn.Some? && |entityLisAnn.value.classes| != 0 {
        lifecycleClasses := lifecycleClasses + entityLisAnn.value.classes;
      }
    }

    /** The loop of `discover` over the lifecycle classes. */
    method RegisterLifecycleMethods(lifecycleClasses: seq<JClass>)
      requires lifecycleMethods == map[]
      modifies this`lifecycleMethods
      ensures lifecycleMethods == TableOf(DiscoveredRegistrations(clazz, lifecycleClasses))
    {
      assert lifecycleClasses[..0] == [];
      for i := 0 to |lifecycleClasses|
        invariant lifecycleMethods == TableOf(DiscoveredRegistrations(clazz, lifecycleClasses[..i]))
      {
        ghost var done := DiscoveredRegistrations(clazz, lifecycleClasses[..i]);
        RegisterClass(lifecycleClasses[i]);
        TableOfAppend(done, ClassRegistrations(clazz, lifecycleClasses[i]));
        assert lifecycleClasses[..i + 1][..i] == lifecycleClasses[..i];
      }
      assert lifecycleClasses[..|lifecycleClasses|] == lifecycleClasses;
    }

    /** The loop of `discover` over the declared and inherited methods of one lifecycle class. */
    method RegisterClass(cls: JClass)
      modifies this`lifecycleMethods
      ensures lifecycleMethods == Apply(old(lifecycleMethods), ClassRegistrations(clazz, cls))
    {
      var owner := if cls == clazz then None else Some(cls);
      var methods := GetDeclaredAndInheritedMethods(Some(cls));
      ghost var start := lifecycleMethods;
      assert methods[..0] == [];
      for j := 0 to |methods|
        invariant lifecycleMethods == Apply(start, MethodRegistrations(methods[..j], owner))
      {
        RegisterMethod(methods[j], owner);
        ApplyAppend(start, MethodRegistrations(methods[..j], owner), EventRegistrations(methods[j], owner, LifecycleAnnotations));
        MethodRegistrationsStep(methods, j, owner);
      }
      assert methods[..|methods|] == methods;
    }

    /** The loop of `discover` over the lifecycle annotations present on one method. */
    method RegisterMethod(m: JMethod, owner: Option<JClass>)
      modifies this`lifecycleMethods
      ensures lifecycleMethods == Apply(old(lifecycleMethods), EventRegistrations(m, owner, LifecycleAnnotations))
    {
      ghost var start := lifecycleMethods;
      assert LifecycleAnnotations[..0] == [];
      for k := 0 to |LifecycleAnnotations|
        invariant lifecycleMethods == Apply(start, EventRegistrations(m, owner, LifecycleAnnotations[..k]))
      {
        var c := LifecycleAnnotations[k];
        ghost var before := EventRegistrations(m, owner, LifecycleAnnotations[..k]);
        EventRegistrationsStep(m, owner, LifecycleAnnotations, k);
        if LifecycleKind(c) in m.annotations {
          AddLifecycleEventMethod(c, m, owner);
          ApplySnoc(start, before, Registration(c, ClassMethodPair(owner, m)));
        } else {
          assert before + [] == before;
        }
      }
      assert LifecycleAnnotations[..|LifecycleAnnotations|] == LifecycleAnnotations;
    }

    /** `addLifecycleEventMethod`: append the pair to the event's list, creating the list if needed. */
    method AddLifecycleEventMethod(lceClazz: Event, m: JMethod, owner: Option<JClass>)
      modifies this`lifecycleMethods
      ensures lifecycleMethods == AddEntry(old(lifecycleMethods), Registration(lceClazz, ClassMethodPair(owner, m)))
    {
      var cm := ClassMethodPair(owner, m);
      if lceClazz in lifecycleMethods {
        lifecycleMethods := lifecycleMethods[lceClazz := lifecycleMethods[lceClazz] + [cm]];
      } else {
        lifecycleMethods := lifecycleMethods[lceClazz := [cm]];
        assert [] + [cm] == [cm];
      }
    }

    /** `getDeclaredAndInheritedMethods`: the superclass chain's non-static methods, ancestors first. */
    static method GetDeclaredAndInheritedMethods(t: Option<JClass>) returns (list: seq<JMethod>)
      ensures list == InheritedMethods(t)
      ensures forall m :: m in list ==> !m.isStatic
      decreases t
    {
      if t.None? || t.value.name == ObjectClassName {
        return [];
      }
      list := GetDeclaredAndInheritedMethods(t.value.superclass);
      var declared := t.value.declaredMethods;
      ghost var inherited := list;
      for i := 0 to |declared|
        invariant list == inherited + NonStatic(declared[..i])
      {
        assert declared[..i + 1][..i] == declared[..i];
        if !declared[i].isStatic {
          list := list + [declared[i]];
        }
      }
      assert declared[..|declared|] == declared;
    }

    /** `discoverFields`: append every non-transient field, in model order. */
    method DiscoverFields()
      requires persistenceFields == []
      modifies this`persistenceFields
      ensures persistenceFields == PersistentFields(clazz.name, classModel.fieldModels)
    {
      var models := classModel.fieldModels;
      assert models[..0] == [];
      for i := 0 to |models|
        invariant persistenceFields == PersistentFields(clazz.name, models[..i])
      {
        assert models[..i + 1][..i] == models[..i];
        var field := MappedFieldOf(clazz.name, models[i]);
        if !models[i].isTransient {
          persistenceFields := persistenceFields + [field];
        }
      }
      assert models[..|models|] == models;
    }

    /** `update`: the last @Embedded, the first @Entity, and the first @Id field when there is one. */
    method Update()
      modifies this`embeddedAn, this`entityAn, this`idField
      ensures embeddedAn == LastInGroup(annotations, EmbeddedKind)
      ensures entityAn == FirstInGroup(annotations, EntityKind)
      ensures idField == if AnnotatedWith(persistenceFields, IdKind) == [] then old(idField)
                         else Some(AnnotatedWith(persistenceFields, IdKind)[0])
      ensures annotations == GroupByKind(classModel.annotations) ==>
                embeddedAn == LastOfKind(classModel.annotations, EmbeddedKind)
    {
      embeddedAn := LastInGroup(annotations, EmbeddedKind);
      entityAn := FirstInGroup(annotations, EntityKind);
      var fields := GetFieldsAnnotatedWith(IdKind);
      if fields != [] {
        idField := Some(fields[0]);
      }
      GetAnnotationIsLast(classModel.annotations, EmbeddedKind);
    }

    /** Calling update again on a discovered descriptor changes nothing. */
    method Reupdate()
      requires Valid()
      modifies this`embeddedAn, this`entityAn, this`idField
      ensures Valid()
    {
      Update();
      GetFirstAnnotationIsFirst(classModel.annotations, EntityKind);
    }

    /** `getAnnotation`: the last annotation of a kind the class carries, or null. */
    function GetAnnotation(k: Kind): (r: Option<Annotation>)
      reads this
      ensures annotations == GroupByKind(classModel.annotations) ==> r == LastOfKind(classModel.annotations, k)
    {
      GetAnnotationIsLast(classModel.annotations, k);
      LastInGroup(annotations, k)
    }

    /** `getFirstAnnotation`: the first annotation of a kind the class carries, or null. */
    function GetFirstAnnotation(k: Kind): (r: Option<Annotation>)
      reads this
      ensures annotations == GroupByKind(classModel.annotations) ==> r == FirstOfKind(classModel.annotations, k)
    {
      GetFirstAnnotationIsFirst(classModel.annotations, k);
      FirstInGroup(annotations, k)
    }

    /** `getAnnotations`: every annotation of a kind, in class order, or null when there is none. */
    function GetAnnotations(k: Kind): (r: Option<seq<Annotation>>)
      reads this
      ensures annotations == GroupByKind(classModel.annotations) ==>
                (r.None? <==> OfKind(classModel.annotations, k) == [])
                && (r.Some? ==> r.value == OfKind(classModel.annotations, k))
    {
      GroupByKindContents(classModel.annotations, k);
      if k in annotations then Some(annotations[k]) else None
    }

    /** `getCollectionName`: the @Entity value unless absent or ".", else the simple name, lower-cased on option. */
    function GetCollectionName(): (r: string)
      reads this
      requires Valid()
      ensures var e := FirstOfKind(classModel.annotations, EntityKind);
              if e.Some? && e.value.value != IgnoredFieldName then r == e.value.value
              else if mapperOptions.useLowerCaseCollectionNames then r == ToLower(clazz.simpleName)
              else r == clazz.simpleName
    {
      CollectionName(entityAn, clazz.simpleName, mapperOptions.useLowerCaseCollectionNames)
    }

    /** `getFieldsAnnotatedWith`: a fresh list of the persisted fields carrying `k`, in field order. */
    method GetFieldsAnnotatedWith(k: Kind) returns (results: seq<MappedField>)
      ensures results == AnnotatedWith(persistenceFields, k)
      ensures forall f :: f in results <==> f in persistenceFields && k in f.annotations
    {
      results := [];
      for i := 0 to |persistenceFields|
        invariant results == AnnotatedWith(persistenceFields[..i], k)
      {
        assert persistenceFields[..i + 1][..i] == persistenceFields[..i];
        var mf := persistenceFields[i];
        if k in mf.annotations {
          results := results + [mf];
        }
      }
      assert persistenceFields[..|persistenceFields|] == persistenceFields;
      AnnotatedWithMembers(persistenceFields, k);
    }

    /** `getMappedField`: the first persisted field stored under `storedName`, or null. */
    function GetMappedField(storedName: string): (r: Option<MappedField>)
      reads this
      ensures r.None? <==> forall f :: f in persistenceFields ==> f.nameToStore != storedName
      ensures r.Some? ==> exists i :: IsFirstStoredAs(persistenceFields, i, storedName) && persistenceFields[i] == r.value
    {
      var i := FirstStoredAs(persistenceFields, storedName);
      if i.None? then None else Some(persistenceFields[i.value])
    }

    /** `getMappedFieldByJavaField`: the first persisted field with Java name `name`, or null. */
    method GetMappedFieldByJavaField(name: string) returns (r: Option<MappedField>)
      ensures r.None? <==> forall f :: f in persistenceFields ==> f.javaFieldName != name
      ensures r.Some? ==> exists i :: IsFirstNamed(persistenceFields, i, name) && persistenceFields[i] == r.value
    {
      for i := 0 to |persistenceFields|
        invariant forall j :: 0 <= j < i ==> persistenceFields[j].javaFieldName != name
      {
        var mf := persistenceFields[i];
        if name == mf.javaFieldName {
          assert IsFirstNamed(persistenceFields, i, name);
          return Some(mf);
        }
      }
      return None;
    }

    /** `getMappedIdField`: the first persisted field annotated @Id, or null. */
    method GetMappedIdField() returns (r: Option<MappedField>)
      ensures r.None? <==> forall f :: f in persistenceFields ==> IdKind !in f.annotations
      ensures forall i :: IsFirstAnnotated(persistenceFields, i, IdKind) ==> r == Some(persistenceFields[i])
    {
      var fields := GetFieldsAnnotatedWith(IdKind);
      forall i | IsFirstAnnotated(persistenceFields, i, IdKind) {
        FirstAnnotatedComesFirst(persistenceFields, i, IdKind);
      }
      if fields == [] {
        return None;
      }
      return Some(fields[0]);
    }

    /** `getMappedVersionField`: the first persisted field annotated @Version, or null. */
    method GetMappedVersionField() returns (r: Option<MappedField>)
      ensures r.None? <==> forall f :: f in persistenceFields ==> VersionKind !in f.annotations
      ensures forall i :: IsFirstAnnotated(persistenceFields, i, VersionKind) ==> r == Some(persistenceFields[i])
    {
      var fields := GetFieldsAnnotatedWith(VersionKind);
      forall i | IsFirstAnnotated(persistenceFields, i, VersionKind) {
        FirstAnnotatedComesFirst(persistenceFields, i, VersionKind);
      }
      if fields == [] {
        return None;
      }
      return Some(fields[0]);
    }

    /** `equals`: two descriptors are equal exactly when they map the same type. */
    predicate Equals(that: MappedClass?)
      reads this, that
      ensures Equals(that) <==> that != null && that.clazz == clazz
    {
      this == that || (that != null && clazz == that.clazz)
    }

    /** `isSubType`: `mc` is the direct superclass or one of the directly implemented interfaces; no transitive walk. */
    predicate IsSubType(mc: MappedClass)
      reads this, mc
      ensures Valid() ==> (IsSubType(mc) <==> (clazz.superclass == Some(mc.clazz) && mc.clazz.name != ObjectClassName)
                                               || mc.clazz in clazz.interfaces)
    {
      (superClass.Some? && mc.clazz == superClass.value) || mc.clazz in interfaces
    }

    /** `hasLifecycle`: some method was registered for the event during discovery. */
    predicate HasLifecycle(e: Event)
      reads this
      requires Valid()
      ensures HasLifecycle(e) <==>
                PairsFor(DiscoveredRegistrations(clazz, LifecycleClasses(clazz, classModel.annotations)), e) != []
    {
      TableOfContents(DiscoveredRegistrations(clazz, LifecycleClasses(clazz, classModel.annotations)), e);
      e in lifecycleMethods
    }

    /** `getOrCreateInstance`: the cached listener instance, or a new one that is cached for later calls. */
    method GetOrCreateInstance(c: JClass, mapper: Mapper) returns (o: Value)
      requires mapper.Valid()
      modifies mapper`instanceCache, mapper`nextOid
      ensures mapper.Valid()
      ensures c in mapper.instanceCache && mapper.instanceCache[c] == o
      ensures mapper.instanceCache.Keys == old(mapper.instanceCache).Keys + {c}
      ensures c in old(mapper.instanceCache) ==>
                o == old(mapper.instanceCache[c]) && mapper.instanceCache == old(mapper.instanceCache)
                && mapper.nextOid == old(mapper.nextOid)
      ensures c !in old(mapper.instanceCache) ==>
                o == Obj(c.name, old(mapper.nextOid), map[]) && mapper.instanceCache == old(mapper.instanceCache)[c := o]
                && mapper.nextOid == old(mapper.nextOid) + 1
                && forall d :: d in old(mapper.instanceCache) ==> old(mapper.instanceCache)[d].oid < o.oid
    {
      if c in mapper.instanceCache {
        return mapper.instanceCache[c];
      }
      o := Obj(c.name, mapper.nextOid, map[]);
      mapper.nextOid := mapper.nextOid + 1;
      mapper.instanceCache := mapper.instanceCache[c := o];
    }

    /**
     * `callLifecycleMethods`: create the listener instances the event needs, run its
     * methods in registration order (a non-null result replaces the running document),
     * then call every global interceptor with the input document.
     */
    method CallLifecycleMethods(event: Event, entity: Value, document: Document, mapper: Mapper,
                                invoke: Invoke, intercept: Intercept) returns (d: Dispatch)
      requires mapper.Valid()
      modifies mapper`instanceCache, mapper`nextOid
      ensures mapper.Valid()
      ensures forall c :: c in old(mapper.instanceCache) ==>
                c in mapper.instanceCache && mapper.instanceCache[c] == old(mapper.instanceCache)[c]
      ensures mapper.instanceCache.Keys == old(mapper.instanceCache).Keys
                + (if event in lifecycleMethods then ListenerClasses(PairClasses(lifecycleMethods[event])) else {})
      ensures d == CallLifecycle(lifecycleMethods, event, mapper.instanceCache, mapper.interceptors,
                                 entity, document, invoke, intercept)
    {
      var run := Run(Ok(document), []);
      if event in lifecycleMethods {
        var methodPairs := lifecycleMethods[event];
        var toCall := CreateListenerInstances(methodPairs, mapper);
        run := RunLifecycleMethods(methodPairs, toCall, mapper.instanceCache, entity, document, invoke);
        if run.result.Err? {
          return Dispatch(run.result, run.calls, []);
        }
      }
      var pass := CallGlobalInterceptors(event, entity, document, mapper.interceptors, intercept);
      if pass.outcome.Err? {
        return Dispatch(Err(pass.outcome.error), run.calls, pass.calls);
      }
      d := Dispatch(run.result, run.calls, pass.calls);
    }

    /** The dispatch loop of callLifecycleMethods: each call by receiver and arity, a non-null result replacing the running document. */
    static method RunLifecycleMethods(methodPairs: seq<ClassMethodPair>, toCall: map<Option<JClass>, Value>,
                                      ghost instances: map<JClass, Value>, entity: Value, document: Document,
                                      invoke: Invoke) returns (run: Run)
      requires forall p :: p in methodPairs ==> p.clazz in toCall
      requires forall p :: p in methodPairs ==>
                 toCall[p.clazz] == if p.clazz.Some? then Lookup(instances, p.clazz.value) else Null
      ensures run == RunMethods(methodPairs, instances, entity, document, invoke)
    {
      var retDbObj := document;
      var calls: seq<Invocation> := [];
      assert methodPairs[..0] == [];
      for i := 0 to |methodPairs|
        invariant Run(Ok(retDbObj), calls) == RunMethods(methodPairs[..i], instances, entity, document, invoke)
      {
        var cm := methodPairs[i];
        assert cm in methodPairs;
        var call := PrepareCall(cm, toCall[cm.clazz], instances, entity, retDbObj);
        RunMethodsStep(methodPairs, i, instances, entity, document, invoke);
        var tempObj := invoke(call);
        if tempObj.Err? {
          run := Run(Err(Wrapped("lifecycle method failed")), calls + [call]);
          FailureStopsRun(methodPairs, i + 1, instances, entity, document, invoke);
          return;
        }
        calls := calls + [call];
        if tempObj.value.Some? {
          retDbObj := tempObj.value.value;
        }
      }
      assert methodPairs[..|methodPairs|] == methodPairs;
      run := Run(Ok(retDbObj), calls);
    }

    /** The call for one pair: on the entity when there is no listener instance, else on the instance, by arity. */
    static method PrepareCall(cm: ClassMethodPair, inst: Value, ghost instances: map<JClass, Value>,
                              entity: Value, retDbObj: Document) returns (call: Invocation)
      requires inst == if cm.clazz.Some? then Lookup(instances, cm.clazz.value) else Null
      ensures call == InvocationFor(cm, instances, entity, retDbObj)
    {
      var m := cm.meth;
      if inst == Null {
        if m.arity == 0 {
          call := Invocation(m, entity, []);
        } else {
          call := Invocation(m, entity, [DocumentArg(retDbObj)]);
        }
      } else if m.arity == 0 {
        call := Invocation(m, inst, []);
      } else if m.arity == 1 {
        call := Invocation(m, inst, [EntityArg(entity)]);
      } else {
        call := Invocation(m, inst, [EntityArg(entity), DocumentArg(retDbObj)]);
      }
    }

    /** The first loop of callLifecycleMethods: a null slot for the class of every pair. */
    static method CollectPairClasses(methodPairs: seq<ClassMethodPair>) returns (toCall: map<Option<JClass>, Value>)
      ensures toCall.Keys == PairClasses(methodPairs)
      ensures forall c :: c in toCall ==> toCall[c] == Null
    {
      toCall := map[];
      assert methodPairs[..0] == [];
      for i := 0 to |methodPairs|
        invariant toCall.Keys == PairClasses(methodPairs[..i])
        invariant forall c :: c in toCall ==> toCall[c] == Null
      {
        toCall := toCall[methodPairs[i].clazz := Null];
        assert methodPairs[..i + 1] == methodPairs[..i] + [methodPairs[i]];
        PairClassesSnoc(methodPairs[..i], methodPairs[i]);
      }
      assert methodPairs[..|methodPairs|] == methodPairs;
    }

    /**
     * The `toCall` map of callLifecycleMethods: every pair's class, bound to its
     * listener instance (null for the entity's own); exactly the pairs' listener
     * classes are added to the instance cache.
     */
    method CreateListenerInstances(methodPairs: seq<ClassMethodPair>, mapper: Mapper)
      returns (toCall: map<Option<JClass>, Value>)
      requires mapper.Valid()
      modifies mapper`instanceCache, mapper`nextOid
      ensures mapper.Valid()
      ensures forall c :: c in old(mapper.instanceCache) ==>
                c in mapper.instanceCache && mapper.instanceCache[c] == old(mapper.instanceCache)[c]
      ensures mapper.instanceCache.Keys == old(mapper.instanceCache).Keys + ListenerClasses(PairClasses(methodPairs))
      ensures toCall.Keys == PairClasses(methodPairs)
      ensures forall c :: c in toCall ==>
                (c.Some? ==> c.value in mapper.instanceCache) &&
                toCall[c] == if c.Some? then mapper.instanceCache[c.value] else Null
    {
      toCall := CollectPairClasses(methodPairs);
      var pending := toCall.Keys;
      ghost var slots := toCall.Keys;
      ghost var done: set<Option<JClass>> := {};
      while pending != {}
        invariant pending <= slots && toCall.Keys == slots
        invariant done == slots - pending
        invariant mapper.Valid()
        invariant forall c :: c in old(mapper.instanceCache) ==>
                    c in mapper.instanceCache && mapper.instanceCache[c] == old(mapper.instanceCache)[c]
        invariant mapper.instanceCache.Keys == old(mapper.instanceCache).Keys + ListenerClasses(done)
        invariant forall c :: c in done ==>
                    (c.Some? ==> c.value in mapper.instanceCache) &&
                    toCall[c] == if c.Some? then mapper.instanceCache[c.value] else Null
        invariant forall c :: c in pending ==> toCall[c] == Null
        decreases pending
      {
        var c :| c in pending;
        ListenerClassesAdd(done, c);
        ghost var keys := mapper.instanceCache.Keys;
        ghost var cache := mapper.instanceCache;
        toCall := BindInstance(c, toCall, mapper);
        assert mapper.instanceCache.Keys == keys + (if c.Some? then {c.value} else {});
        assert forall d :: d in done && d.Some? ==> mapper.instanceCache[d.value] == cache[d.value];
        pending := pending - {c};
        done := done + {c};
      }
      assert done == slots;
    }

    /** One step of the binding loop: a listener class's slot gets its instance, the entity's own slot stays null. */
    method BindInstance(c: Option<JClass>, toCall: map<Option<JClass>, Value>, mapper: Mapper)
      returns (bound: map<Option<JClass>, Value>)
      requires mapper.Valid()
      requires c in toCall && toCall[c] == Null
      modifies mapper`instanceCache, mapper`nextOid
      ensures mapper.Valid()
      ensures forall d :: d in old(mapper.instanceCache) ==>
                d in mapper.instanceCache && mapper.instanceCache[d] == old(mapper.instanceCache)[d]
      ensures mapper.instanceCache.Keys == old(mapper.instanceCache).Keys + (if c.Some? then {c.value} else {})
      ensures c.Some? ==> c.value in mapper.instanceCache && bound == toCall[c := mapper.instanceCache[c.value]]
      ensures c.None? ==> bound == toCall
    {
      bound := toCall;
      if c.Some? {
        var inst := GetOrCreateInstance(c.value, mapper);
        bound := toCall[c := inst];
      }
    }

    /** `callGlobalInterceptors`: each interceptor's callback for the event, with the given document. */
    static method CallGlobalInterceptors(event: Event, entity: Value, document: Document,
                                         interceptors: seq<Interceptor>, intercept: Intercept)
      returns (pass: Pass)
      ensures pass == RunInterceptors(interceptors, event, entity, document, intercept)
    {
      var calls: seq<InterceptorCall> := [];
      assert interceptors[..0] == [];
      for i := 0 to |interceptors|
        invariant Pass(Ok(()), calls) == RunInterceptors(interceptors[..i], event, entity, document, intercept)
      {
        var call := InterceptorCall(interceptors[i], event, entity, document);
        InterceptorsStep(interceptors, i, event, entity, document, intercept);
        calls := calls + [call];
        if intercept(call).Err? {
          pass := Pass(Err(Wrapped("interceptor failed")), calls);
          FailureStopsPass(interceptors, i + 1, event, entity, document, intercept);
          return;
        }
      }
      assert interceptors[..|interceptors|] == interceptors;
      pass := Pass(Ok(()), calls);
    }
  }
}
