/**
 * The pure part of MappedClass: annotation grouping and lookups, the
 * persisted-field list and its queries, the collection name, the
 * ancestor-first method walk, the lifecycle table as a fold of
 * registrations, and lifecycle dispatch as a left fold over the registered
 * methods. The class Mapping.MappedClass keeps its fields equal to these
 * functions of its ClassModel.
 */
module MappedClassModel {
  import opened Runtime
  import opened Reflection

  // ---------------------------------------------------------------------
  // Annotations grouped by kind (Collectors.groupingBy keeps encounter order)
  // ---------------------------------------------------------------------

  /** The annotations of kind `k`, in the order they were listed. */
  function OfKind(anns: seq<Annotation>, k: Kind): (r: seq<Annotation>)
    ensures |r| <= |anns|
    decreases |anns|
  {
    if anns == [] then []
    else
      var last := anns[|anns| - 1];
      OfKind(anns[..|anns| - 1], k) + (if last.kind == k then [last] else [])
  }

  /** `annotations = classModel.getAnnotations().stream().collect(groupingBy(annotationType))`. */
  function GroupByKind(anns: seq<Annotation>): (g: map<Kind, seq<Annotation>>)
    ensures forall k :: k in g ==> g[k] != []
    decreases |anns|
  {
    if anns == [] then map[]
    else
      var g := GroupByKind(anns[..|anns| - 1]);
      var a := anns[|anns| - 1];
      g[a.kind := (if a.kind in g then g[a.kind] else []) + [a]]
  }

  /** A kind has a group exactly when some annotation is of that kind, and the group lists them in order. */
  lemma {:induction false} GroupByKindContents(anns: seq<Annotation>, k: Kind)
    ensures k in GroupByKind(anns) <==> OfKind(anns, k) != []
    ensures k in GroupByKind(anns) ==> GroupByKind(anns)[k] == OfKind(anns, k)
    decreases |anns|
  {
    if anns != [] {
      GroupByKindContents(anns[..|anns| - 1], k);
    }
  }

  /** Reference definition: scanning from the end, the last annotation of kind `k`. */
  function LastOfKind(anns: seq<Annotation>, k: Kind): (r: Option<Annotation>)
    ensures r.None? <==> forall i :: 0 <= i < |anns| ==> anns[i].kind != k
    ensures r.Some? ==> r.value.kind == k
    decreases |anns|
  {
    if anns == [] then None
    else if anns[|anns| - 1].kind == k then Some(anns[|anns| - 1])
    else LastOfKind(anns[..|anns| - 1], k)
  }

  /** `anns[i]` is of kind `k` and no later annotation is. */
  ghost predicate IsLastOfKind(anns: seq<Annotation>, i: int, k: Kind) {
    0 <= i < |anns| && anns[i].kind == k && forall j :: i < j < |anns| ==> anns[j].kind != k
  }

  /** LastOfKind finds the latest annotation of its kind. */
  lemma {:induction false} LastOfKindIsLatest(anns: seq<Annotation>, i: int, k: Kind)
    requires IsLastOfKind(anns, i, k)
    ensures LastOfKind(anns, k) == Some(anns[i])
    decreases |anns|
  {
    var n := |anns| - 1;
    if i < n {
      var init := anns[..n];
      assert init[i] == anns[i];
      assert IsLastOfKind(init, i, k) by {
        forall j | i < j < n ensures init[j].kind != k {
          assert init[j] == anns[j];
        }
      }
      LastOfKindIsLatest(init, i, k);
    }
  }

  /** Reference definition: scanning from the front, the first annotation of kind `k`. */
  function FirstOfKind(anns: seq<Annotation>, k: Kind): (r: Option<Annotation>)
    ensures r.None? <==> forall i :: 0 <= i < |anns| ==> anns[i].kind != k
    ensures r.Some? ==> r.value.kind == k
  {
    if anns == [] then None
    else if anns[0].kind == k then Some(anns[0])
    else FirstOfKind(anns[1..], k)
  }

  /** `anns[i]` is of kind `k` and no earlier annotation is. */
  ghost predicate IsFirstOfKind(anns: seq<Annotation>, i: int, k: Kind) {
    0 <= i < |anns| && anns[i].kind == k && forall j :: 0 <= j < i ==> anns[j].kind != k
  }

  /** FirstOfKind finds the earliest annotation of its kind. */
  lemma {:induction false} FirstOfKindIsEarliest(anns: seq<Annotation>, i: int, k: Kind)
    requires IsFirstOfKind(anns, i, k)
    ensures FirstOfKind(anns, k) == Some(anns[i])
    decreases |anns|
  {
    if i > 0 {
      var tail := anns[1..];
      assert tail[i - 1] == anns[i];
      assert IsFirstOfKind(tail, i - 1, k) by {
        forall j | 0 <= j < i - 1 ensures tail[j].kind != k {
          assert tail[j] == anns[j + 1];
        }
      }
      FirstOfKindIsEarliest(tail, i - 1, k);
    }
  }

  /** `getAnnotation` on a grouped map: the last element of the kind's list, or null. */
  function LastInGroup(g: map<Kind, seq<Annotation>>, k: Kind): Option<Annotation> {
    if k !in g || g[k] == [] then None else Some(g[k][|g[k]| - 1])
  }

  /** `getFirstAnnotation` on a grouped map: the first element of the kind's list, or null. */
  function FirstInGroup(g: map<Kind, seq<Annotation>>, k: Kind): Option<Annotation> {
    if k !in g || g[k] == [] then None else Some(g[k][0])
  }

  lemma {:induction false} OfKindAppend(a: seq<Annotation>, b: seq<Annotation>, k: Kind)
    ensures OfKind(a + b, k) == OfKind(a, k) + OfKind(b, k)
    decreases |b|
  {
    if b != [] {
      var init := b[..|b| - 1];
      assert (a + b)[..|a + b| - 1] == a + init;
      OfKindAppend(a, init, k);
    } else {
      assert a + b == a;
    }
  }

  lemma OfKindCons(anns: seq<Annotation>, k: Kind)
    requires anns != []
    ensures OfKind(anns, k) == (if anns[0].kind == k then [anns[0]] else []) + OfKind(anns[1..], k)
  {
    assert anns == [anns[0]] + anns[1..];
    OfKindAppend([anns[0]], anns[1..], k);
    assert [anns[0]][..0] == [];
  }

  /** getAnnotation returns the last annotation recorded for a kind, null if there is none. */
  lemma {:induction false} GetAnnotationIsLast(anns: seq<Annotation>, k: Kind)
    ensures LastInGroup(GroupByKind(anns), k) == LastOfKind(anns, k)
    decreases |anns|
  {
    if anns != [] {
      var init := anns[..|anns| - 1];
      GetAnnotationIsLast(init, k);
    }
  }

  /** getFirstAnnotation returns the first annotation recorded for a kind, null if there is none. */
  lemma {:induction false} GetFirstAnnotationIsFirst(anns: seq<Annotation>, k: Kind)
    ensures FirstInGroup(GroupByKind(anns), k) == FirstOfKind(anns, k)
    decreases |anns|
  {
    if anns != [] {
      OfKindCons(anns, k);
      GroupByKindContents(anns, k);
      GroupByKindContents(anns[1..], k);
      GetFirstAnnotationIsFirst(anns[1..], k);
    }
  }

  // ---------------------------------------------------------------------
  // Persisted fields and their queries
  // ---------------------------------------------------------------------

  /** `discoverFields`: one MappedField per non-transient field model, in model order. */
  function PersistentFields(owner: ClassName, models: seq<FieldModel>): (fs: seq<MappedField>)
    ensures |fs| <= |models|
    ensures forall f :: f in fs ==> f.declaringClass == owner
    decreases |models|
  {
    if models == [] then []
    else
      var m := models[|models| - 1];
      PersistentFields(owner, models[..|models| - 1]) + (if m.isTransient then [] else [MappedFieldOf(owner, m)])
  }

  /** A field is persisted exactly when its model is not transient; nothing else is added. */
  lemma {:induction false} PersistentFieldsMembers(owner: ClassName, models: seq<FieldModel>)
    ensures forall m :: m in models && !m.isTransient ==> MappedFieldOf(owner, m) in PersistentFields(owner, models)
    ensures forall f :: f in PersistentFields(owner, models) ==>
              exists m :: m in models && !m.isTransient && f == MappedFieldOf(owner, m)
    decreases |models|
  {
    if models != [] {
      var init := models[..|models| - 1];
      PersistentFieldsMembers(owner, init);
      assert models == init + [models[|models| - 1]];
    }
  }

  /** `getFieldsAnnotatedWith`: the fields carrying annotation `k`, in their original order. */
  function AnnotatedWith(fs: seq<MappedField>, k: Kind): (r: seq<MappedField>)
    ensures |r| <= |fs|
    ensures forall i :: 0 <= i < |r| ==> k in r[i].annotations
    decreases |fs|
  {
    if fs == [] then []
    else
      var f := fs[|fs| - 1];
      AnnotatedWith(fs[..|fs| - 1], k) + (if k in f.annotations then [f] else [])
  }

  /** A field is selected exactly when it is one of the fields and carries `k`. */
  lemma {:induction false} AnnotatedWithMembers(fs: seq<MappedField>, k: Kind)
    ensures forall f :: f in AnnotatedWith(fs, k) <==> f in fs && k in f.annotations
    decreases |fs|
  {
    if fs != [] {
      var init := fs[..|fs| - 1];
      AnnotatedWithMembers(init, k);
      assert fs == init + [fs[|fs| - 1]];
    }
  }

  ghost predicate IsFirstAnnotated(fs: seq<MappedField>, i: int, k: Kind) {
    0 <= i < |fs| && k in fs[i].annotations && forall j :: 0 <= j < i ==> k !in fs[j].annotations
  }

  ghost predicate IsFirstStoredAs(fs: seq<MappedField>, i: int, storedName: string) {
    0 <= i < |fs| && fs[i].nameToStore == storedName && forall j :: 0 <= j < i ==> fs[j].nameToStore != storedName
  }

  ghost predicate IsFirstNamed(fs: seq<MappedField>, i: int, name: string) {
    0 <= i < |fs| && fs[i].javaFieldName == name && forall j :: 0 <= j < i ==> fs[j].javaFieldName != name
  }

  /** No field carries `k`: the selection is empty. */
  lemma {:induction false} NoneAnnotated(fs: seq<MappedField>, k: Kind)
    requires forall j :: 0 <= j < |fs| ==> k !in fs[j].annotations
    ensures AnnotatedWith(fs, k) == []
    decreases |fs|
  {
    if fs != [] {
      NoneAnnotated(fs[..|fs| - 1], k);
    }
  }

  /** The first element of AnnotatedWith is the first field, in field order, that carries `k`. */
  lemma {:induction false} FirstAnnotatedComesFirst(fs: seq<MappedField>, i: int, k: Kind)
    requires IsFirstAnnotated(fs, i, k)
    ensures AnnotatedWith(fs, k) != [] && AnnotatedWith(fs, k)[0] == fs[i]
    decreases |fs|
  {
    var init := fs[..|fs| - 1];
    var last := fs[|fs| - 1];
    assert AnnotatedWith(fs, k) == AnnotatedWith(init, k) + (if k in last.annotations then [last] else []);
    if i < |fs| - 1 {
      assert init[i] == fs[i];
      assert IsFirstAnnotated(init, i, k) by {
        forall j | 0 <= j < i ensures k !in init[j].annotations {
          assert init[j] == fs[j];
        }
      }
      FirstAnnotatedComesFirst(init, i, k);
    } else {
      NoneAnnotated(init, k);
    }
  }

  /** The index of the first field stored under `storedName` (the stream's findFirst). */
  function FirstStoredAs(fs: seq<MappedField>, storedName: string): (r: Option<nat>)
    ensures r.None? <==> forall f :: f in fs ==> f.nameToStore != storedName
    ensures r.Some? ==> IsFirstStoredAs(fs, r.value, storedName)
  {
    if fs == [] then None
    else if fs[0].nameToStore == storedName then Some(0)
    else
      var r := FirstStoredAs(fs[1..], storedName);
      assert forall f :: f in fs[1..] ==> f in fs;
      assert forall f :: f in fs ==> f == fs[0] || f in fs[1..];
      if r.None? then None
      else
        assert IsFirstStoredAs(fs, r.value + 1, storedName) by {
          forall j | 0 <= j < r.value + 1 ensures fs[j].nameToStore != storedName {
            if j > 0 { assert fs[j] == fs[1..][j - 1]; }
          }
        }
        Some(r.value + 1)
  }

  // ---------------------------------------------------------------------
  // Collection name
  // ---------------------------------------------------------------------

  function ToLowerChar(c: char): char {
    if 'A' <= c <= 'Z' then (c as int + 32) as char else c
  }

  /** String.toLowerCase over the ASCII letters. */
  function ToLower(s: string): (r: string)
    ensures |r| == |s|
    ensures forall i :: 0 <= i < |s| ==> r[i] == ToLowerChar(s[i])
    ensures forall i :: 0 <= i < |r| ==> !('A' <= r[i] <= 'Z')
  {
    if s == [] then [] else [ToLowerChar(s[0])] + ToLower(s[1..])
  }

  /** `getCollectionName` given the recorded @Entity annotation, the simple name and the option. */
  function CollectionName(entityAn: Option<Annotation>, simpleName: string, lowerCase: bool): (r: string)
    ensures entityAn.Some? && entityAn.value.value != IgnoredFieldName ==> r == entityAn.value.value
    ensures (entityAn.None? || entityAn.value.value == IgnoredFieldName) && !lowerCase ==> r == simpleName
    ensures (entityAn.None? || entityAn.value.value == IgnoredFieldName) && lowerCase ==> r == ToLower(simpleName)
  {
    if entityAn.None? || entityAn.value.value == IgnoredFieldName then
      if lowerCase then ToLower(simpleName) else simpleName
    else entityAn.value.value
  }

  // ---------------------------------------------------------------------
  // Declared and inherited methods, ancestor first
  // ---------------------------------------------------------------------

  /** The non-static methods of a declared-method list, in declaration order. */
  function NonStatic(ms: seq<JMethod>): (r: seq<JMethod>)
    ensures forall m :: m in r <==> m in ms && !m.isStatic
    decreases |ms|
  {
    if ms == [] then []
    else
      var m := ms[|ms| - 1];
      NonStatic(ms[..|ms| - 1]) + (if m.isStatic then [] else [m])
  }

  /** `getDeclaredAndInheritedMethods`: empty for null or Object, else the superclass's list then this class's non-static methods. */
  function InheritedMethods(t: Option<JClass>): (ms: seq<JMethod>)
    ensures forall m :: m in ms ==> !m.isStatic
    decreases t
  {
    if t.None? || t.value.name == ObjectClassName then []
    else InheritedMethods(t.value.superclass) + NonStatic(t.value.declaredMethods)
  }

  /** `a` is reached from `t` by following superclass links, before java.lang.Object stops the walk. */
  ghost predicate IsAncestor(a: JClass, t: JClass)
    decreases t
  {
    t.name != ObjectClassName && t.superclass.Some?
    && (t.superclass.value == a || IsAncestor(a, t.superclass.value))
  }

  /** `c` is `t` or one of its ancestors below java.lang.Object: a class whose methods the walk from `t` visits. */
  ghost predicate DeclaresInChain(c: JClass, t: JClass) {
    c.name != ObjectClassName && (c == t || IsAncestor(c, t))
  }

  /**
   * The walk lists a method exactly when it is a non-static method declared by
   * the type or by one of its ancestors below java.lang.Object.
   */
  lemma {:induction false} InheritedMethodsMembers(t: Option<JClass>, m: JMethod)
    ensures m in InheritedMethods(t) <==>
              t.Some? && exists c :: DeclaresInChain(c, t.value) && m in c.declaredMethods && !m.isStatic
    decreases t
  {
    if t.Some? && t.value.name != ObjectClassName {
      var tv := t.value;
      InheritedMethodsMembers(tv.superclass, m);
      assert InheritedMethods(t) == InheritedMethods(tv.superclass) + NonStatic(tv.declaredMethods);
      if m in InheritedMethods(t) {
        if m in NonStatic(tv.declaredMethods) {
          assert DeclaresInChain(tv, tv);
        } else {
          var c :| DeclaresInChain(c, tv.superclass.value) && m in c.declaredMethods && !m.isStatic;
          assert IsAncestor(c, tv);
        }
      }
      if exists c :: DeclaresInChain(c, tv) && m in c.declaredMethods && !m.isStatic {
        var c :| DeclaresInChain(c, tv) && m in c.declaredMethods && !m.isStatic;
        if c != tv {
          assert DeclaresInChain(c, tv.superclass.value);
        }
      }
    } else if t.Some? {
      forall c | DeclaresInChain(c, t.value) ensures false {
        assert !IsAncestor(c, t.value);
      }
    }
  }

  /** Every ancestor's methods come, as a block, before those of its subclasses. */
  lemma {:induction false} AncestorMethodsFirst(a: JClass, t: JClass)
    requires IsAncestor(a, t)
    ensures InheritedMethods(Some(a)) <= InheritedMethods(Some(t))
    decreases t
  {
    var s := t.superclass.value;
    assert InheritedMethods(Some(t)) == InheritedMethods(Some(s)) + NonStatic(t.declaredMethods);
    if s != a {
      AncestorMethodsFirst(a, s);
    }
  }

  // ---------------------------------------------------------------------
  // The lifecycle table
  // ---------------------------------------------------------------------

  /** A registered lifecycle method; `clazz` is None for the entity's own methods, else the listener class. */
  datatype ClassMethodPair = ClassMethodPair(clazz: Option<JClass>, meth: JMethod)

  /** One call of addLifecycleEventMethod. */
  datatype Registration = Registration(event: Event, pair: ClassMethodPair)

  type LifecycleTable = map<Event, seq<ClassMethodPair>>

  /** `addLifecycleEventMethod`: append `p` to the event's list, creating the list when absent. */
  function AddEntry(t: LifecycleTable, r: Registration): LifecycleTable {
    t[r.event := (if r.event in t then t[r.event] else []) + [r.pair]]
  }

  /** The table after a sequence of registrations, starting from an empty table. */
  function TableOf(regs: seq<Registration>): LifecycleTable
    decreases |regs|
  {
    if regs == [] then map[] else AddEntry(TableOf(regs[..|regs| - 1]), regs[|regs| - 1])
  }

  /** The table after registrations applied, in order, to an existing table. */
  function Apply(t: LifecycleTable, regs: seq<Registration>): LifecycleTable
    decreases |regs|
  {
    if regs == [] then t else AddEntry(Apply(t, regs[..|regs| - 1]), regs[|regs| - 1])
  }

  /** One more registration adds one entry to the table. */
  lemma ApplySnoc(t: LifecycleTable, regs: seq<Registration>, r: Registration)
    ensures Apply(t, regs + [r]) == AddEntry(Apply(t, regs), r)
  {
    assert (regs + [r])[..|regs|] == regs;
  }

  /** Registering two batches one after the other is registering their concatenation. */
  lemma {:induction false} ApplyAppend(t: LifecycleTable, a: seq<Registration>, b: seq<Registration>)
    ensures Apply(t, a + b) == Apply(Apply(t, a), b)
    decreases |b|
  {
    if b == [] {
      assert a + b == a;
    } else {
      var b' := b[..|b| - 1];
      assert (a + b)[..|a + b| - 1] == a + b';
      ApplyAppend(t, a, b');
    }
  }

  /** Registering a batch on the table of earlier registrations gives the table of all of them. */
  lemma {:induction false} TableOfAppend(a: seq<Registration>, b: seq<Registration>)
    ensures TableOf(a + b) == Apply(TableOf(a), b)
    decreases |b|
  {
    if b == [] {
      assert a + b == a;
    } else {
      var b' := b[..|b| - 1];
      assert (a + b)[..|a + b| - 1] == a + b';
      TableOfAppend(a, b');
    }
  }

  /** Reference definition: the pairs registered for event `e`, in registration order. */
  function PairsFor(regs: seq<Registration>, e: Event): (ps: seq<ClassMethodPair>)
    ensures |ps| <= |regs|
    decreases |regs|
  {
    if regs == [] then []
    else
      var r := regs[|regs| - 1];
      PairsFor(regs[..|regs| - 1], e) + (if r.event == e then [r.pair] else [])
  }

  /**
   * addLifecycleEventMethod only appends: across any run of registrations every
   * event's list keeps its entries in order, and the events present are the old
   * ones plus those registered.
   */
  lemma {:induction false} ApplyAppendOnly(t: LifecycleTable, regs: seq<Registration>)
    ensures forall e :: e in t ==> e in Apply(t, regs) && t[e] <= Apply(t, regs)[e]
    ensures forall e :: e in Apply(t, regs) <==> e in t || exists r :: r in regs && r.event == e
    decreases |regs|
  {
    if regs != [] {
      var init := regs[..|regs| - 1];
      ApplyAppendOnly(t, init);
      assert regs == init + [regs[|regs| - 1]];
    }
  }

  /** The table holds, per event, exactly the pairs registered for it; hasLifecycle(e) iff one was. */
  lemma {:induction false} TableOfContents(regs: seq<Registration>, e: Event)
    ensures e in TableOf(regs) <==> PairsFor(regs, e) != []
    ensures e in TableOf(regs) ==> TableOf(regs)[e] == PairsFor(regs, e)
    decreases |regs|
  {
    if regs != [] {
      TableOfContents(regs[..|regs| - 1], e);
    }
  }

  lemma {:induction false} PairsForAppend(a: seq<Registration>, b: seq<Registration>, e: Event)
    ensures PairsFor(a + b, e) == PairsFor(a, e) + PairsFor(b, e)
    decreases |b|
  {
    if b != [] {
      var b' := b[..|b| - 1];
      assert (a + b)[..|a + b| - 1] == a + b';
      PairsForAppend(a, b', e);
    } else {
      assert a + b == a;
    }
  }

  /** The registrations of one method, for each lifecycle annotation it carries, in LifecycleAnnotations order. */
  function EventRegistrations(m: JMethod, owner: Option<JClass>, events: seq<Event>): seq<Registration>
    decreases |events|
  {
    if events == [] then []
    else
      var c := events[|events| - 1];
      EventRegistrations(m, owner, events[..|events| - 1])
      + (if LifecycleKind(c) in m.annotations then [Registration(c, ClassMethodPair(owner, m))] else [])
  }

  /** The registration for one more lifecycle annotation, when the method carries it, follows those before it. */
  lemma EventRegistrationsStep(m: JMethod, owner: Option<JClass>, events: seq<Event>, k: nat)
    requires k < |events|
    ensures EventRegistrations(m, owner, events[..k + 1])
            == EventRegistrations(m, owner, events[..k])
               + (if LifecycleKind(events[k]) in m.annotations then [Registration(events[k], ClassMethodPair(owner, m))] else [])
  {
    assert events[..k + 1][..k] == events[..k];
  }

  /** The registrations of a list of methods, all with the same owner. */
  function MethodRegistrations(ms: seq<JMethod>, owner: Option<JClass>): seq<Registration>
    decreases |ms|
  {
    if ms == [] then []
    else MethodRegistrations(ms[..|ms| - 1], owner) + EventRegistrations(ms[|ms| - 1], owner, LifecycleAnnotations)
  }

  /** The registrations of one more method follow those of the methods before it. */
  lemma MethodRegistrationsStep(ms: seq<JMethod>, j: nat, owner: Option<JClass>)
    requires j < |ms|
    ensures MethodRegistrations(ms[..j + 1], owner)
            == MethodRegistrations(ms[..j], owner) + EventRegistrations(ms[j], owner, LifecycleAnnotations)
  {
    assert ms[..j + 1][..j] == ms[..j];
  }

  /** The owner recorded for a lifecycle class: null for the mapped type itself. */
  function OwnerOf(clazz: JClass, cls: JClass): Option<JClass> {
    if cls == clazz then None else Some(cls)
  }

  /** The registrations contributed by one lifecycle class. */
  function ClassRegistrations(clazz: JClass, cls: JClass): seq<Registration> {
    MethodRegistrations(InheritedMethods(Some(cls)), OwnerOf(clazz, cls))
  }

  /** The registrations of `discover`, class by class. */
  function DiscoveredRegistrations(clazz: JClass, classes: seq<JClass>): seq<Registration>
    decreases |classes|
  {
    if classes == [] then []
    else DiscoveredRegistrations(clazz, classes[..|classes| - 1]) + ClassRegistrations(clazz, classes[|classes| - 1])
  }

  /** The lifecycle classes of `discover`: the type, then the listeners of the last @EntityListeners. */
  function LifecycleClasses(clazz: JClass, anns: seq<Annotation>): (cs: seq<JClass>)
    ensures |cs| >= 1 && cs[0] == clazz
  {
    var listeners := LastOfKind(anns, EntityListenersKind);
    if listeners.Some? && listeners.value.classes != [] then [clazz] + listeners.value.classes else [clazz]
  }

  /** The lifecycle table `discover` builds for a class model. */
  function DiscoveredTable(model: ClassModel): LifecycleTable {
    TableOf(DiscoveredRegistrations(model.clazz, LifecycleClasses(model.clazz, model.annotations)))
  }

  lemma {:induction false} DiscoveredAppend(clazz: JClass, a: seq<JClass>, b: seq<JClass>)
    ensures DiscoveredRegistrations(clazz, a + b) == DiscoveredRegistrations(clazz, a) + DiscoveredRegistrations(clazz, b)
    decreases |b|
  {
    if b != [] {
      var b' := b[..|b| - 1];
      var x := b[|b| - 1];
      assert (a + b)[..|a + b| - 1] == a + b';
      assert (a + b)[|a + b| - 1] == x;
      assert DiscoveredRegistrations(clazz, a + b) == DiscoveredRegistrations(clazz, a + b') + ClassRegistrations(clazz, x);
      DiscoveredAppend(clazz, a, b');
      assert DiscoveredRegistrations(clazz, b) == DiscoveredRegistrations(clazz, b') + ClassRegistrations(clazz, x);
    } else {
      assert a + b == a;
    }
  }

  /** Every lifecycle event is one of the five annotations `discover` checks. */
  lemma EveryEventListed(e: Event)
    ensures e in LifecycleAnnotations
  {
    match e
    case PrePersist => assert LifecycleAnnotations[0] == e;
    case PreSave => assert LifecycleAnnotations[1] == e;
    case PreLoad => assert LifecycleAnnotations[2] == e;
    case PostPersist => assert LifecycleAnnotations[3] == e;
    case PostLoad => assert LifecycleAnnotations[4] == e;
  }

  /**
   * A class's methods register, for an event, exactly the pairs (owner, m) of the
   * listed methods `m` that carry that event's annotation.
   */
  lemma {:induction false} MethodRegistrationsOwner(ms: seq<JMethod>, owner: Option<JClass>, e: Event)
    ensures forall p :: p in PairsFor(MethodRegistrations(ms, owner), e) <==>
              p.clazz == owner && p.meth in ms && LifecycleKind(e) in p.meth.annotations
    decreases |ms|
  {
    if ms != [] {
      var init := ms[..|ms| - 1];
      var last := ms[|ms| - 1];
      MethodRegistrationsOwner(init, owner, e);
      PairsForAppend(MethodRegistrations(init, owner), EventRegistrations(last, owner, LifecycleAnnotations), e);
      EventRegistrationsOwner(last, owner, LifecycleAnnotations, e);
      EveryEventListed(e);
      assert ms == init + [last];
    }
  }

  /**
   * One method registers, for an event, the pair (owner, m) exactly when the
   * event is among those checked and the method carries its annotation.
   */
  lemma {:induction false} EventRegistrationsOwner(m: JMethod, owner: Option<JClass>, events: seq<Event>, e: Event)
    ensures forall p :: p in PairsFor(EventRegistrations(m, owner, events), e) <==>
              p == ClassMethodPair(owner, m) && e in events && LifecycleKind(e) in m.annotations
    decreases |events|
  {
    if events != [] {
      var init := events[..|events| - 1];
      var ev := events[|events| - 1];
      EventRegistrationsOwner(m, owner, init, e);
      assert events == init + [ev];
      if LifecycleKind(ev) in m.annotations {
        var r := Registration(ev, ClassMethodPair(owner, m));
        assert EventRegistrations(m, owner, events) == EventRegistrations(m, owner, init) + [r];
        PairsForAppend(EventRegistrations(m, owner, init), [r], e);
        assert [r][..0] == [];
      } else {
        assert EventRegistrations(m, owner, events) == EventRegistrations(m, owner, init) by {
          assert EventRegistrations(m, owner, init) + [] == EventRegistrations(m, owner, init);
        }
      }
    }
  }

  /** Lifecycle class `c` contributes pair `p` for event `e`. */
  ghost predicate Contributes(clazz: JClass, c: JClass, e: Event, p: ClassMethodPair) {
    p.clazz == OwnerOf(clazz, c) && p.meth in InheritedMethods(Some(c)) && LifecycleKind(e) in p.meth.annotations
  }

  /**
   * The registrations of `discover` hold, for an event, exactly the pairs of a
   * lifecycle class's declared or inherited methods carrying the event's
   * annotation, each with that class's owner (null for the type itself).
   */
  lemma {:induction false} DiscoveredRegistrationsMembers(clazz: JClass, classes: seq<JClass>, e: Event, p: ClassMethodPair)
    ensures p in PairsFor(DiscoveredRegistrations(clazz, classes), e) <==>
              exists c :: c in classes && Contributes(clazz, c, e, p)
    decreases |classes|
  {
    if classes != [] {
      var init := classes[..|classes| - 1];
      var last := classes[|classes| - 1];
      DiscoveredRegistrationsMembers(clazz, init, e, p);
      PairsForAppend(DiscoveredRegistrations(clazz, init), ClassRegistrations(clazz, last), e);
      MethodRegistrationsOwner(InheritedMethods(Some(last)), OwnerOf(clazz, last), e);
      assert p in PairsFor(ClassRegistrations(clazz, last), e) <==> Contributes(clazz, last, e, p);
      ContributorsSplit(clazz, classes, e, p);
    }
  }

  /** A contributor among a non-empty list of classes is among the first ones or is the last. */
  lemma ContributorsSplit(clazz: JClass, classes: seq<JClass>, e: Event, p: ClassMethodPair)
    requires classes != []
    ensures (exists c :: c in classes && Contributes(clazz, c, e, p)) <==>
              (exists c :: c in classes[..|classes| - 1] && Contributes(clazz, c, e, p))
              || Contributes(clazz, classes[|classes| - 1], e, p)
  {
    var init := classes[..|classes| - 1];
    assert classes == init + [classes[|classes| - 1]];
  }

  /**
   * For every event, the type's own methods (registered with a null class) come
   * before all listener-class methods, which carry their listener class.
   */
  lemma OwnMethodsBeforeListeners(clazz: JClass, listeners: seq<JClass>, e: Event)
    ensures PairsFor(DiscoveredRegistrations(clazz, [clazz] + listeners), e)
            == PairsFor(ClassRegistrations(clazz, clazz), e) + PairsFor(DiscoveredRegistrations(clazz, listeners), e)
    ensures forall p :: p in PairsFor(ClassRegistrations(clazz, clazz), e) ==>
              p.clazz.None? && p.meth in InheritedMethods(Some(clazz))
  {
    DiscoveredAppend(clazz, [clazz], listeners);
    assert DiscoveredRegistrations(clazz, [clazz]) == ClassRegistrations(clazz, clazz) by {
      assert [clazz][..0] == [];
    }
    PairsForAppend(ClassRegistrations(clazz, clazz), DiscoveredRegistrations(clazz, listeners), e);
    MethodRegistrationsOwner(InheritedMethods(Some(clazz)), None, e);
  }

  /** A listener class other than the type is recorded with that class, so its methods run on a listener instance. */
  lemma ListenerMethodsCarryTheirClass(clazz: JClass, cls: JClass, e: Event)
    requires cls != clazz
    ensures forall p :: p in PairsFor(ClassRegistrations(clazz, cls), e) ==> p.clazz == Some(cls)
  {
    MethodRegistrationsOwner(InheritedMethods(Some(cls)), Some(cls), e);
  }

  // ---------------------------------------------------------------------
  // Lifecycle dispatch
  // ---------------------------------------------------------------------

  /** An argument passed by Method.invoke. */
  datatype Arg = EntityArg(entity: Value) | DocumentArg(doc: Document)

  /** One reflective call: the method, its receiver and its arguments. */
  datatype Invocation = Invocation(meth: JMethod, receiver: Value, args: seq<Arg>)

  /** A global interceptor, and one call of its callback for an event. */
  datatype Interceptor = Interceptor(id: nat)
  datatype InterceptorCall = InterceptorCall(interceptor: Interceptor, event: Event, entity: Value, doc: Document)

  /**
   * The effect of a lifecycle method: the document it returns (None for null or void),
   * or the message of what it threw.
   */
  type Invoke = Invocation -> Result<Option<Document>>

  /** The effect of an interceptor callback: Ok(()) or the exception it threw. */
  type Intercept = InterceptorCall -> Result<()>

  /** The classes named by a list of pairs: `toCall`'s keys, null standing for the entity's own methods. */
  function PairClasses(ps: seq<ClassMethodPair>): set<Option<JClass>> {
    set p | p in ps :: p.clazz
  }

  /** The listener classes among a set of pair classes: those a listener instance is needed for. */
  function ListenerClasses(cs: set<Option<JClass>>): set<JClass> {
    set c | c in cs && c.Some? :: c.value
  }

  lemma PairClassesSnoc(ps: seq<ClassMethodPair>, p: ClassMethodPair)
    ensures PairClasses(ps + [p]) == PairClasses(ps) + {p.clazz}
  {
    assert forall q :: q in ps + [p] <==> q in ps || q == p;
  }

  lemma ListenerClassesAdd(done: set<Option<JClass>>, c: Option<JClass>)
    ensures ListenerClasses(done + {c}) == ListenerClasses(done) + (if c.Some? then {c.value} else {})
  {
  }

  /** The listener instance bound for a pair's class: null for the entity's own methods or an unbound class. */
  function InstanceFor(p: ClassMethodPair, instances: map<JClass, Value>): Value {
    if p.clazz.Some? then Lookup(instances, p.clazz.value) else Null
  }

  /**
   * The call made for one pair. Without a listener instance the method runs on
   * the entity, with the document when it takes a parameter; on an instance it
   * takes nothing, the entity, or the entity and the document, by arity.
   */
  function InvocationFor(p: ClassMethodPair, instances: map<JClass, Value>, entity: Value, doc: Document): (c: Invocation)
    ensures c.meth == p.meth
    ensures InstanceFor(p, instances) == Null ==> c.receiver == entity
    ensures InstanceFor(p, instances) != Null ==> c.receiver == InstanceFor(p, instances)
    ensures c.args == [] <==> p.meth.arity == 0
    ensures |c.args| <= 2
    ensures |c.args| == if InstanceFor(p, instances) == Null then (if p.meth.arity == 0 then 0 else 1)
                         else (if p.meth.arity >= 2 then 2 else p.meth.arity)
    ensures (c.args != [] && c.args[|c.args| - 1] == DocumentArg(doc)) <==>
              (InstanceFor(p, instances) == Null && p.meth.arity >= 1) || (InstanceFor(p, instances) != Null && p.meth.arity >= 2)
    ensures (c.args != [] && c.args[0] == EntityArg(entity)) <==> InstanceFor(p, instances) != Null && p.meth.arity >= 1
  {
    var inst := InstanceFor(p, instances);
    var m := p.meth;
    if inst == Null then
      if m.arity == 0 then Invocation(m, entity, []) else Invocation(m, entity, [DocumentArg(doc)])
    else if m.arity == 0 then Invocation(m, inst, [])
    else if m.arity == 1 then Invocation(m, inst, [EntityArg(entity)])
    else Invocation(m, inst, [EntityArg(entity), DocumentArg(doc)])
  }

  /** What running a list of methods produced: the final document or the failure, and the calls made. */
  datatype Run = Run(result: Result<Document>, calls: seq<Invocation>)

  /** The document after a call returned `ret`: a non-null result replaces it. */
  function Next(doc: Document, ret: Option<Document>): Document {
    if ret.Some? then ret.value else doc
  }

  /** One more method after a run: called with the running document unless an earlier one threw. */
  function RunOne(prior: Run, p: ClassMethodPair, instances: map<JClass, Value>, entity: Value, invoke: Invoke): Run {
    if prior.result.Err? then prior
    else
      var call := InvocationFor(p, instances, entity, prior.result.value);
      match invoke(call)
      case Err(_) => Run(Err(Wrapped("lifecycle method failed")), prior.calls + [call])
      case Ok(ret) => Run(Ok(Next(prior.result.value, ret)), prior.calls + [call])
  }

  /** The dispatch loop: a left fold over the pairs, stopping at the first exception. */
  function RunMethods(pairs: seq<ClassMethodPair>, instances: map<JClass, Value>, entity: Value,
                      doc: Document, invoke: Invoke): (run: Run)
    ensures run.result.Ok? ==> |run.calls| == |pairs|
    ensures |run.calls| <= |pairs|
    ensures run.result.Err? ==> run.result == Err(Wrapped("lifecycle method failed")) && run.calls != []
    decreases |pairs|
  {
    if pairs == [] then Run(Ok(doc), [])
    else RunOne(RunMethods(pairs[..|pairs| - 1], instances, entity, doc, invoke), pairs[|pairs| - 1], instances, entity, invoke)
  }

  /** The run over one more pair continues the run over the pairs before it. */
  lemma RunMethodsStep(pairs: seq<ClassMethodPair>, i: nat, instances: map<JClass, Value>, entity: Value,
                       doc: Document, invoke: Invoke)
    requires i < |pairs|
    ensures RunMethods(pairs[..i + 1], instances, entity, doc, invoke)
            == RunOne(RunMethods(pairs[..i], instances, entity, doc, invoke), pairs[i], instances, entity, invoke)
  {
    assert pairs[..i + 1][..i] == pairs[..i];
  }

  /** Once a method has thrown, the later ones are not called: the run over the whole list ends the same way. */
  lemma {:induction false} FailureStopsRun(pairs: seq<ClassMethodPair>, n: nat, instances: map<JClass, Value>,
                                           entity: Value, doc: Document, invoke: Invoke)
    requires n <= |pairs|
    requires RunMethods(pairs[..n], instances, entity, doc, invoke).result.Err?
    ensures RunMethods(pairs, instances, entity, doc, invoke) == RunMethods(pairs[..n], instances, entity, doc, invoke)
    decreases |pairs| - n
  {
    if n < |pairs| {
      var init := pairs[..|pairs| - 1];
      assert init[..n] == pairs[..n];
      FailureStopsRun(init, n, instances, entity, doc, invoke);
    } else {
      assert pairs[..n] == pairs;
    }
  }

  /**
   * A method that throws ends the dispatch: the run fails with the wrapped
   * exception, and its call is the last one made.
   */
  lemma ThrowingMethodEndsRun(pairs: seq<ClassMethodPair>, i: nat, instances: map<JClass, Value>,
                              entity: Value, doc: Document, invoke: Invoke)
    requires i < |pairs| && RunMethods(pairs[..i], instances, entity, doc, invoke).result.Ok?
    requires invoke(InvocationFor(pairs[i], instances, entity,
                                  RunMethods(pairs[..i], instances, entity, doc, invoke).result.value)).Err?
    ensures RunMethods(pairs, instances, entity, doc, invoke)
            == Run(Err(Wrapped("lifecycle method failed")),
                   RunMethods(pairs[..i], instances, entity, doc, invoke).calls
                   + [InvocationFor(pairs[i], instances, entity, RunMethods(pairs[..i], instances, entity, doc, invoke).result.value)])
  {
    RunMethodsStep(pairs, i, instances, entity, doc, invoke);
    FailureStopsRun(pairs, i + 1, instances, entity, doc, invoke);
  }

  /** A call throws exactly when it is the last call of a failed run: every earlier call returned. */
  lemma {:induction false} OnlyLastCallThrows(pairs: seq<ClassMethodPair>, instances: map<JClass, Value>,
                                              entity: Value, doc: Document, invoke: Invoke)
    ensures forall i :: 0 <= i < |RunMethods(pairs, instances, entity, doc, invoke).calls| ==>
              (invoke(RunMethods(pairs, instances, entity, doc, invoke).calls[i]).Err? <==>
                 RunMethods(pairs, instances, entity, doc, invoke).result.Err?
                 && i == |RunMethods(pairs, instances, entity, doc, invoke).calls| - 1)
    decreases |pairs|
  {
    if pairs != [] {
      var init := pairs[..|pairs| - 1];
      var prior := RunMethods(init, instances, entity, doc, invoke);
      var run := RunMethods(pairs, instances, entity, doc, invoke);
      OnlyLastCallThrows(init, instances, entity, doc, invoke);
      RunOneCalls(prior, pairs[|pairs| - 1], instances, entity, invoke);
      if prior.result.Ok? {
        forall i | 0 <= i < |run.calls|
          ensures invoke(run.calls[i]).Err? <==> run.result.Err? && i == |run.calls| - 1
        {
          if i < |prior.calls| {
            assert run.calls[i] == prior.calls[i];
          }
        }
      }
    }
  }

  /** In a successful run, call `i` returned a document and every later call returned null. */
  ghost predicate IsLastReturn(run: Run, invoke: Invoke, i: int) {
    0 <= i < |run.calls| && invoke(run.calls[i]).Ok? && invoke(run.calls[i]).value.Some?
    && forall j :: i < j < |run.calls| ==> invoke(run.calls[j]) == Ok(None)
  }

  /** A successful run returns the document of the last method that returned one. */
  lemma {:induction false} ResultIsLastReturn(pairs: seq<ClassMethodPair>, i: nat, instances: map<JClass, Value>,
                                              entity: Value, doc: Document, invoke: Invoke)
    requires RunMethods(pairs, instances, entity, doc, invoke).result.Ok?
    requires IsLastReturn(RunMethods(pairs, instances, entity, doc, invoke), invoke, i)
    ensures RunMethods(pairs, instances, entity, doc, invoke).result
            == Ok(invoke(RunMethods(pairs, instances, entity, doc, invoke).calls[i]).value.value)
    decreases |pairs|
  {
    var run := RunMethods(pairs, instances, entity, doc, invoke);
    var init := pairs[..|pairs| - 1];
    var prior := RunMethods(init, instances, entity, doc, invoke);
    assert run.calls == prior.calls + [run.calls[|run.calls| - 1]];
    if i < |prior.calls| {
      assert IsLastReturn(prior, invoke, i) by {
        forall j | i < j < |prior.calls| ensures invoke(prior.calls[j]) == Ok(None) {
          assert prior.calls[j] == run.calls[j];
        }
      }
      ResultIsLastReturn(init, i, instances, entity, doc, invoke);
    }
  }

  /**
   * The i-th call goes to the i-th pair's method, with the document left by the
   * methods before it; in particular the first call sees the input document.
   */
  lemma {:induction false} CallSeesPrefixDocument(pairs: seq<ClassMethodPair>, i: nat, instances: map<JClass, Value>,
                                                  entity: Value, doc: Document, invoke: Invoke)
    requires i < |RunMethods(pairs, instances, entity, doc, invoke).calls|
    ensures RunMethods(pairs[..i], instances, entity, doc, invoke).result.Ok?
    ensures RunMethods(pairs, instances, entity, doc, invoke).calls[i]
            == InvocationFor(pairs[i], instances, entity, RunMethods(pairs[..i], instances, entity, doc, invoke).result.value)
    decreases |pairs|
  {
    var init := pairs[..|pairs| - 1];
    var prior := RunMethods(init, instances, entity, doc, invoke);
    RunOneCalls(prior, pairs[|pairs| - 1], instances, entity, invoke);
    if i < |prior.calls| {
      CallSeesPrefixDocument(init, i, instances, entity, doc, invoke);
      assert init[..i] == pairs[..i];
    } else {
      assert init == pairs[..i];
    }
  }

  /** One more pair adds its call to a run that has not failed, and nothing to one that has. */
  lemma RunOneCalls(prior: Run, p: ClassMethodPair, instances: map<JClass, Value>, entity: Value, invoke: Invoke)
    ensures prior.result.Err? ==> RunOne(prior, p, instances, entity, invoke) == prior
    ensures prior.result.Ok? ==>
              var call := InvocationFor(p, instances, entity, prior.result.value);
              var next := RunOne(prior, p, instances, entity, invoke);
              next.calls == prior.calls + [call]
              && (next.result.Err? <==> invoke(call).Err?)
              && (invoke(call).Ok? ==> next.result == Ok(Next(prior.result.value, invoke(call).value)))
  {
  }

  /** A run whose calls all returned null leaves the input document in place. */
  lemma {:induction false} NullResultsKeepDocument(pairs: seq<ClassMethodPair>, instances: map<JClass, Value>,
                                                   entity: Value, doc: Document, invoke: Invoke)
    requires forall j :: 0 <= j < |RunMethods(pairs, instances, entity, doc, invoke).calls| ==>
               invoke(RunMethods(pairs, instances, entity, doc, invoke).calls[j]) == Ok(None)
    ensures RunMethods(pairs, instances, entity, doc, invoke).result == Ok(doc)
    decreases |pairs|
  {
    if pairs != [] {
      var run := RunMethods(pairs, instances, entity, doc, invoke);
      var init := pairs[..|pairs| - 1];
      var prior := RunMethods(init, instances, entity, doc, invoke);
      RunOneCalls(prior, pairs[|pairs| - 1], instances, entity, invoke);
      assert forall j :: 0 <= j < |prior.calls| ==> prior.calls[j] == run.calls[j];
      NullResultsKeepDocument(init, instances, entity, doc, invoke);
      assert invoke(run.calls[|run.calls| - 1]) == Ok(None);
    }
  }

  /** What the interceptor pass produced: success or the wrapped failure, and the callbacks made. */
  datatype Pass = Pass(outcome: Result<()>, calls: seq<InterceptorCall>)

  /** One more interceptor after a pass: its callback is made unless an earlier one threw. */
  function PassOne(prior: Pass, interceptor: Interceptor, event: Event, entity: Value, doc: Document,
                   intercept: Intercept): Pass {
    if prior.outcome.Err? then prior
    else
      var call := InterceptorCall(interceptor, event, entity, doc);
      if intercept(call).Err? then Pass(Err(Wrapped("interceptor failed")), prior.calls + [call])
      else Pass(Ok(()), prior.calls + [call])
  }

  /** The interceptor pass: every interceptor in order, stopping at the first exception. */
  function RunInterceptors(interceptors: seq<Interceptor>, event: Event, entity: Value, doc: Document,
                           intercept: Intercept): (p: Pass)
    ensures |p.calls| <= |interceptors|
    ensures p.outcome.Ok? ==> |p.calls| == |interceptors|
    ensures p.outcome.Err? ==> p.outcome == Err(Wrapped("interceptor failed")) && p.calls != []
    decreases |interceptors|
  {
    if interceptors == [] then Pass(Ok(()), [])
    else PassOne(RunInterceptors(interceptors[..|interceptors| - 1], event, entity, doc, intercept),
                 interceptors[|interceptors| - 1], event, entity, doc, intercept)
  }

  /** The pass over one more interceptor continues the pass over the ones before it. */
  lemma InterceptorsStep(interceptors: seq<Interceptor>, i: nat, event: Event, entity: Value, doc: Document,
                         intercept: Intercept)
    requires i < |interceptors|
    ensures RunInterceptors(interceptors[..i + 1], event, entity, doc, intercept)
            == PassOne(RunInterceptors(interceptors[..i], event, entity, doc, intercept), interceptors[i],
                       event, entity, doc, intercept)
  {
    assert interceptors[..i + 1][..i] == interceptors[..i];
  }

  /** Every callback of the pass goes to the next interceptor in order, with the same event, entity and document. */
  lemma {:induction false} InterceptorCallsInOrder(interceptors: seq<Interceptor>, event: Event, entity: Value,
                                                   doc: Document, intercept: Intercept)
    ensures var calls := RunInterceptors(interceptors, event, entity, doc, intercept).calls;
            forall i :: 0 <= i < |calls| ==> calls[i] == InterceptorCall(interceptors[i], event, entity, doc)
    decreases |interceptors|
  {
    if interceptors != [] {
      var init := interceptors[..|interceptors| - 1];
      InterceptorCallsInOrder(init, event, entity, doc, intercept);
      var prior := RunInterceptors(init, event, entity, doc, intercept);
      assert forall i :: 0 <= i < |prior.calls| ==> interceptors[i] == init[i];
    }
  }

  /** Once an interceptor has thrown, the later ones are not called: the pass over a longer list ends the same way. */
  lemma {:induction false} FailureStopsPass(interceptors: seq<Interceptor>, n: nat, event: Event, entity: Value,
                                            doc: Document, intercept: Intercept)
    requires n <= |interceptors|
    requires RunInterceptors(interceptors[..n], event, entity, doc, intercept).outcome.Err?
    ensures RunInterceptors(interceptors, event, entity, doc, intercept)
            == RunInterceptors(interceptors[..n], event, entity, doc, intercept)
    decreases |interceptors| - n
  {
    if n < |interceptors| {
      var init := interceptors[..|interceptors| - 1];
      assert init[..n] == interceptors[..n];
      FailureStopsPass(init, n, event, entity, doc, intercept);
    } else {
      assert interceptors[..n] == interceptors;
    }
  }

  /** A callback throws exactly when it is the last callback of a failed pass: every earlier one returned. */
  lemma {:induction false} OnlyLastCallbackThrows(interceptors: seq<Interceptor>, event: Event, entity: Value,
                                                  doc: Document, intercept: Intercept)
    ensures forall i :: 0 <= i < |RunInterceptors(interceptors, event, entity, doc, intercept).calls| ==>
              (intercept(RunInterceptors(interceptors, event, entity, doc, intercept).calls[i]).Err? <==>
                 RunInterceptors(interceptors, event, entity, doc, intercept).outcome.Err?
                 && i == |RunInterceptors(interceptors, event, entity, doc, intercept).calls| - 1)
    decreases |interceptors|
  {
    if interceptors != [] {
      var init := interceptors[..|interceptors| - 1];
      var prior := RunInterceptors(init, event, entity, doc, intercept);
      var p := RunInterceptors(interceptors, event, entity, doc, intercept);
      OnlyLastCallbackThrows(init, event, entity, doc, intercept);
      PassOneCalls(prior, interceptors[|interceptors| - 1], event, entity, doc, intercept);
      if prior.outcome.Ok? {
        forall i | 0 <= i < |p.calls|
          ensures intercept(p.calls[i]).Err? <==> p.outcome.Err? && i == |p.calls| - 1
        {
          if i < |prior.calls| {
            assert p.calls[i] == prior.calls[i];
          }
        }
      }
    }
  }

  /** One more interceptor adds its callback to a pass that has not failed, and nothing to one that has. */
  lemma PassOneCalls(prior: Pass, interceptor: Interceptor, event: Event, entity: Value, doc: Document,
                     intercept: Intercept)
    ensures prior.outcome.Err? ==> PassOne(prior, interceptor, event, entity, doc, intercept) == prior
    ensures prior.outcome.Ok? ==>
              var next := PassOne(prior, interceptor, event, entity, doc, intercept);
              next.calls == prior.calls + [InterceptorCall(interceptor, event, entity, doc)]
              && (next.outcome.Ok? <==> intercept(InterceptorCall(interceptor, event, entity, doc)).Ok?)
  {
  }

  /** An interceptor that throws ends the pass: it fails, and that callback is the last one made. */
  lemma ThrowingInterceptorEndsPass(interceptors: seq<Interceptor>, i: nat, event: Event, entity: Value,
                                    doc: Document, intercept: Intercept)
    requires i < |interceptors| && RunInterceptors(interceptors[..i], event, entity, doc, intercept).outcome.Ok?
    requires intercept(InterceptorCall(interceptors[i], event, entity, doc)).Err?
    ensures RunInterceptors(interceptors, event, entity, doc, intercept)
            == Pass(Err(Wrapped("interceptor failed")),
                    RunInterceptors(interceptors[..i], event, entity, doc, intercept).calls
                    + [InterceptorCall(interceptors[i], event, entity, doc)])
  {
    InterceptorsStep(interceptors, i, event, entity, doc, intercept);
    FailureStopsPass(interceptors, i + 1, event, entity, doc, intercept);
  }

  /** The outcome of callLifecycleMethods: the returned document or the wrapped failure, and every call made. */
  datatype Dispatch = Dispatch(result: Result<Document>, methodCalls: seq<Invocation>, interceptorCalls: seq<InterceptorCall>)

  /**
   * `callLifecycleMethods`: run the event's methods from the input document, then the
   * global interceptors with the ORIGINAL input document (as the source passes `document`).
   */
  function CallLifecycle(table: LifecycleTable, event: Event, instances: map<JClass, Value>,
                         interceptors: seq<Interceptor>, entity: Value, document: Document,
                         invoke: Invoke, intercept: Intercept): (d: Dispatch)
    ensures |d.interceptorCalls| <= |interceptors|
    ensures forall i :: 0 <= i < |d.interceptorCalls| ==>
              d.interceptorCalls[i] == InterceptorCall(interceptors[i], event, entity, document)
    ensures event !in table ==> d.methodCalls == []
    ensures event !in table && d.result.Ok? ==> d.result == Ok(document)
    ensures d.result.Ok? ==> |d.interceptorCalls| == |interceptors|
    ensures event in table ==> d.methodCalls == RunMethods(table[event], instances, entity, document, invoke).calls
    ensures event in table && RunMethods(table[event], instances, entity, document, invoke).result.Err? ==>
              d.result == RunMethods(table[event], instances, entity, document, invoke).result && d.interceptorCalls == []
    ensures event in table && d.result.Ok? ==> d.result == RunMethods(table[event], instances, entity, document, invoke).result
    ensures (event !in table || RunMethods(table[event], instances, entity, document, invoke).result.Ok?) ==>
              d.interceptorCalls == RunInterceptors(interceptors, event, entity, document, intercept).calls
              && (d.result.Ok? <==> RunInterceptors(interceptors, event, entity, document, intercept).outcome.Ok?)
  {
    var run := if event in table then RunMethods(table[event], instances, entity, document, invoke)
               else Run(Ok(document), []);
    if run.result.Err? then Dispatch(run.result, run.calls, [])
    else
      var pass := RunInterceptors(interceptors, event, entity, document, intercept);
      InterceptorCallsInOrder(interceptors, event, entity, document, intercept);
      if pass.outcome.Err? then Dispatch(Err(pass.outcome.error), run.calls, pass.calls)
      else Dispatch(run.result, run.calls, pass.calls)
  }
}
