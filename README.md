# Morphia mapping core in Dafny

A model of two pieces of Morphia's object-document mapping layer.

- **MappedClass** is the per-type descriptor. It groups a class's annotations by type and answers "first" and "last" lookups. It keeps the ordered list of persisted (non-transient) fields, looks fields up by stored name and by Java name, and picks the id and version fields. It also derives the collection name and builds the lifecycle table: for each of the five lifecycle events, the annotated methods of the type (ancestors first) and then of its `@EntityListeners` classes. Finally it dispatches an event: the registered methods run in order, each non-null result replaces the running document, and then the global interceptors run on the original document.
- **ReferenceHandler** writes and resolves a `@Reference` property. When writing, collections and arrays become lists, and each referenced entity becomes its id: a `Key`'s id, or the value of the related class's id field. That id is wrapped in `DBRef(collection, id)` unless the reference is `idOnly`. When loading, the ids are extracted again and resolved through the operation's entity cache. A list reference costs one batched `_id in ids` query and is then updated in place, position by position.

Reflection is data (`Reflection`): classes with their superclass chains, declared methods and annotations, and class and field models. Run-time values are a `Value` datatype (`Runtime`). A Java exception is the `Err` case of a `Result`.

Files:
- `runtime.dfy` holds `Option`, `Result`, the exceptions, and values and documents.
- `reflection.dfy` holds classes, methods, annotations and field models.
- `mapped_class_model.dfy` is the pure specification of MappedClass.java, with its lemmas.
- `mapping.dfy` holds the `MappedClass` and `Mapper` objects. Their methods update fields step by step, as the Java does. `MappedClass.Valid()` states that, after construction, every field equals the specification function of the class model that the source computes.
- `reference_handler.dfy` covers ReferenceHandler.java. Its pure encoding and resolution functions and lemmas sit beside the `EntityCache` and `ReferenceHandler` objects, whose methods update the cache map, the lazily fetched id field and the list array in place.

The model follows the code as written in these places:
- `computeIfAbsent` does not store a null lookup result, so a missing single reference is looked up again next time.
- The batched query asks for all extracted ids, cached or not, and duplicates included.
- An uncached id whose position is past the end of the batch result throws `IndexOutOfBoundsException`. The result is not left short.
- `isSubType` checks only the direct superclass and the direct interfaces.

## Model

| member | source | states |
|---|---|---|
| MappedClassModel.GroupByKindContents | morphia/src/main/java/org/mongodb/morphia/mapping/MappedClass.java:406-408 | A kind has a group exactly when some annotation has that kind, and the group lists those annotations in class order. |
| MappedClassModel.LastOfKindIsLatest | morphia/src/main/java/org/mongodb/morphia/mapping/MappedClass.java:217-220 | The reference "last annotation of a kind" picks the annotation with no later one of the same kind. |
| MappedClassModel.FirstOfKindIsEarliest | morphia/src/main/java/org/mongodb/morphia/mapping/MappedClass.java:287-290 | The reference "first annotation of a kind" picks the annotation with no earlier one of the same kind. |
| MappedClassModel.GetAnnotationIsLast | morphia/src/main/java/org/mongodb/morphia/mapping/MappedClass.java:217-220 | The last element of the grouped list is the last annotation of that kind, or null when there is none. |
| MappedClassModel.GetFirstAnnotationIsFirst | morphia/src/main/java/org/mongodb/morphia/mapping/MappedClass.java:287-290 | The first element of the grouped list is the first annotation of that kind, or null when there is none. |
| Mapping.MappedClass.GetAnnotation | morphia/src/main/java/org/mongodb/morphia/mapping/MappedClass.java:217-220 | On the grouped map, returns the last annotation of the kind, or null. |
| Mapping.MappedClass.GetFirstAnnotation | morphia/src/main/java/org/mongodb/morphia/mapping/MappedClass.java:287-290 | On the grouped map, returns the first annotation of the kind, or null. |
| Mapping.MappedClass.GetAnnotations | morphia/src/main/java/org/mongodb/morphia/mapping/MappedClass.java:230-232 | Null exactly when no annotation has the kind; otherwise all of them, in class order. |
| MappedClassModel.PersistentFieldsMembers | morphia/src/main/java/org/mongodb/morphia/mapping/MappedClass.java:447-461 | Every non-transient field model becomes a persisted field, and every persisted field comes from a non-transient model. |
| Mapping.MappedClass.DiscoverFields | morphia/src/main/java/org/mongodb/morphia/mapping/MappedClass.java:447-461 | The loop appends exactly the non-transient fields, in model order. |
| MappedClassModel.AnnotatedWithMembers | morphia/src/main/java/org/mongodb/morphia/mapping/MappedClass.java:271-279 | A field is selected if and only if it is persisted and carries the annotation. |
| Mapping.MappedClass.GetFieldsAnnotatedWith | morphia/src/main/java/org/mongodb/morphia/mapping/MappedClass.java:271-279 | The filter loop returns the order-preserving selection of fields carrying the annotation, and membership matches exactly. |
| MappedClassModel.FirstAnnotatedComesFirst | morphia/src/main/java/org/mongodb/morphia/mapping/MappedClass.java:331-342 | The head of the selection is the first field, in field order, that carries the annotation. |
| Mapping.MappedClass.GetMappedIdField | morphia/src/main/java/org/mongodb/morphia/mapping/MappedClass.java:331-334 | Null if and only if no persisted field is `@Id`; otherwise the first `@Id` field. |
| Mapping.MappedClass.GetMappedVersionField | morphia/src/main/java/org/mongodb/morphia/mapping/MappedClass.java:339-342 | Null if and only if no persisted field is `@Version`; otherwise the first `@Version` field. |
| MappedClassModel.FirstStoredAs | morphia/src/main/java/org/mongodb/morphia/mapping/MappedClass.java:305-310 | Returns no index if and only if no field is stored under the name; otherwise the index of the first field that is. |
| Mapping.MappedClass.GetMappedField | morphia/src/main/java/org/mongodb/morphia/mapping/MappedClass.java:305-310 | Null if and only if no field has that stored name; otherwise the first one that does. |
| Mapping.MappedClass.GetMappedFieldByJavaField | morphia/src/main/java/org/mongodb/morphia/mapping/MappedClass.java:318-326 | Null if and only if no field has that Java name; otherwise the first one that does. |
| MappedClassModel.ToLower | morphia/src/main/java/org/mongodb/morphia/mapping/MappedClass.java:246 | Lower-casing keeps the length, maps each character, and leaves no upper-case ASCII letter. |
| MappedClassModel.CollectionName | morphia/src/main/java/org/mongodb/morphia/mapping/MappedClass.java:244-249 | The `@Entity` value unless it is absent or "."; otherwise the simple name, or its lower-cased form when the option is on. |
| Mapping.MappedClass.GetCollectionName | morphia/src/main/java/org/mongodb/morphia/mapping/MappedClass.java:244-249 | The same three cases, for the first `@Entity` of the class model. |
| MappedClassModel.NonStatic | morphia/src/main/java/org/mongodb/morphia/mapping/MappedClass.java:469-473 | Exactly the non-static declared methods are kept. |
| MappedClassModel.InheritedMethods | morphia/src/main/java/org/mongodb/morphia/mapping/MappedClass.java:463-476 | Only non-static methods are listed. |
| MappedClassModel.InheritedMethodsMembers | morphia/src/main/java/org/mongodb/morphia/mapping/MappedClass.java:463-476 | A method is listed exactly when it is non-static and declared by the type or by an ancestor below `java.lang.Object`. |
| MappedClassModel.AncestorMethodsFirst | morphia/src/main/java/org/mongodb/morphia/mapping/MappedClass.java:463-476 | Every ancestor's method list is a prefix of its descendant's list, so ancestors' methods come first. |
| Mapping.MappedClass.GetDeclaredAndInheritedMethods | morphia/src/main/java/org/mongodb/morphia/mapping/MappedClass.java:463-476 | The recursive method with its loop computes the ancestor-first list, and the list holds no static method. |
| MappedClassModel.ApplyAppend | morphia/src/main/java/org/mongodb/morphia/mapping/MappedClass.java:478-487 | Registering two batches one after the other equals registering their concatenation. |
| MappedClassModel.TableOfAppend | morphia/src/main/java/org/mongodb/morphia/mapping/MappedClass.java:428-436 | Registering a batch on the table of earlier registrations gives the table of all registrations. |
| MappedClassModel.ApplyAppendOnly | morphia/src/main/java/org/mongodb/morphia/mapping/MappedClass.java:478-487 | Registration only appends: every event's list keeps its entries in order, and the events present are the old ones plus those registered. |
| MappedClassModel.TableOfContents | morphia/src/main/java/org/mongodb/morphia/mapping/MappedClass.java:443-445 | An event is in the table if and only if some method was registered for it, and its list holds those methods in registration order. |
| MappedClassModel.PairsForAppend | morphia/src/main/java/org/mongodb/morphia/mapping/MappedClass.java:428-436 | An event's registrations from two batches are those of the first batch followed by those of the second. |
| MappedClassModel.LifecycleClasses | morphia/src/main/java/org/mongodb/morphia/mapping/MappedClass.java:420-426 | The lifecycle classes start with the type itself. |
| MappedClassModel.DiscoveredAppend | morphia/src/main/java/org/mongodb/morphia/mapping/MappedClass.java:428-436 | Class-by-class registration distributes over concatenation of the class list. |
| MappedClassModel.MethodRegistrationsOwner | morphia/src/main/java/org/mongodb/morphia/mapping/MappedClass.java:429-435 | For an event, a class's methods register exactly the pairs (owner, m) with m among the methods and carrying the event's annotation. |
| MappedClassModel.EventRegistrationsOwner | morphia/src/main/java/org/mongodb/morphia/mapping/MappedClass.java:430-434 | For an event, one method registers the pair (owner, method) exactly when the event is among those checked and the method carries its annotation; nothing else. |
| MappedClassModel.DiscoveredRegistrationsMembers | morphia/src/main/java/org/mongodb/morphia/mapping/MappedClass.java:420-436 | For an event, discovery registers exactly the pairs of a lifecycle class's declared or inherited non-static methods that carry the event's annotation, each with its class as owner (null for the type itself). |
| MappedClassModel.OwnMethodsBeforeListeners | morphia/src/main/java/org/mongodb/morphia/mapping/MappedClass.java:420-436 | For every event, the type's own methods, registered with a null class, come before every listener-class method. |
| MappedClassModel.ListenerMethodsCarryTheirClass | morphia/src/main/java/org/mongodb/morphia/mapping/MappedClass.java:432 | A listener class other than the type registers its methods with that class. |
| Mapping.MappedClass.ListLifecycleClasses | morphia/src/main/java/org/mongodb/morphia/mapping/MappedClass.java:420-426 | The type, then the classes of the last `@EntityListeners`, when that list is not empty. |
| Mapping.MappedClass.AddLifecycleEventMethod | morphia/src/main/java/org/mongodb/morphia/mapping/MappedClass.java:478-487 | The table after one append is the table before it plus the one registration. |
| Mapping.MappedClass.RegisterMethod | morphia/src/main/java/org/mongodb/morphia/mapping/MappedClass.java:430-434 | The loop over the five lifecycle annotations applies exactly the method's registrations, in the annotations' order. |
| Mapping.MappedClass.RegisterClass | morphia/src/main/java/org/mongodb/morphia/mapping/MappedClass.java:429-435 | The loop over the class's declared and inherited methods applies exactly that class's registrations. |
| Mapping.MappedClass.RegisterLifecycleMethods | morphia/src/main/java/org/mongodb/morphia/mapping/MappedClass.java:428-436 | Starting from an empty table, the nested loops build exactly the table of all registrations, class by class. |
| Mapping.MappedClass.DiscoverSuperTypes | morphia/src/main/java/org/mongodb/morphia/mapping/MappedClass.java:411-418 | Records the superclass unless it is absent or Object, and the direct interfaces in order. |
| Mapping.MappedClass.Update | morphia/src/main/java/org/mongodb/morphia/mapping/MappedClass.java:384-391 | Sets the last `@Embedded` and the first `@Entity`; sets the id field to the first `@Id` field when there is one, and otherwise keeps the old one. |
| Mapping.MappedClass.Reupdate | morphia/src/main/java/org/mongodb/morphia/mapping/MappedClass.java:384-391 | Running `update` again on a discovered descriptor keeps every field's discovered value. |
| Mapping.MappedClass.Discover | morphia/src/main/java/org/mongodb/morphia/mapping/MappedClass.java:405-441 | After discovery, each field equals its specification function of the class model. |
| Mapping.MappedClass.Create | morphia/src/main/java/org/mongodb/morphia/mapping/MappedClass.java:101-118 | Fails with a mapping error exactly for a non-static member class; otherwise the descriptor is fully discovered. |
| Mapping.MappedClass.constructor | morphia/src/main/java/org/mongodb/morphia/mapping/MappedClass.java:101-118 | A constructed descriptor satisfies `Valid()`. |
| Mapping.MappedClass.Equals | morphia/src/main/java/org/mongodb/morphia/mapping/MappedClass.java:357-369 | Two descriptors are equal exactly when the other is non-null and maps the same type. |
| Mapping.MappedClass.IsSubType | morphia/src/main/java/org/mongodb/morphia/mapping/MappedClass.java:371-373 | True exactly when the other type is the direct superclass (other than Object) or a directly implemented interface. |
| Mapping.MappedClass.HasLifecycle | morphia/src/main/java/org/mongodb/morphia/mapping/MappedClass.java:443-445 | True exactly when discovery registered some method for the event. |
| Mapping.MappedClass.GetOrCreateInstance | morphia/src/main/java/org/mongodb/morphia/mapping/MappedClass.java:510-525 | Returns the cached instance unchanged; otherwise returns a new instance and caches it, so later calls return it. Either way the cache gains that class and no other. |
| Mapping.MappedClass.CreateListenerInstances | morphia/src/main/java/org/mongodb/morphia/mapping/MappedClass.java:164-172 | `toCall` has exactly the pairs' classes as keys: null for the type's own methods, the cached listener instance otherwise. Existing cache entries are kept, and exactly the pairs' listener classes are added to the cache. |
| Mapping.MappedClass.CollectPairClasses | morphia/src/main/java/org/mongodb/morphia/mapping/MappedClass.java:164-167 | The first loop gives every pair's class, and no other key, a null slot. |
| Mapping.MappedClass.BindInstance | morphia/src/main/java/org/mongodb/morphia/mapping/MappedClass.java:168-171 | A listener class's slot gets its (possibly new) cached instance and the cache gains just that class; the type's own slot stays null and the cache is untouched. |
| MappedClassModel.InvocationFor | morphia/src/main/java/org/mongodb/morphia/mapping/MappedClass.java:183-195 | The call goes to the pair's method. With no listener instance the receiver is the entity, with exactly one argument, the running document, when the method takes a parameter and none otherwise. With an instance the receiver is the instance, with as many arguments as the arity up to two: none, the entity, or the entity then the running document. |
| Mapping.MappedClass.PrepareCall | morphia/src/main/java/org/mongodb/morphia/mapping/MappedClass.java:176-195 | Looks up the pair's slot in `toCall` and builds the call `InvocationFor` specifies: receiver and arguments chosen by instance and arity. |
| MappedClassModel.RunMethods | morphia/src/main/java/org/mongodb/morphia/mapping/MappedClass.java:174-206 | A successful run makes one call per registered method; a run never makes more calls than there are methods; a failed run made at least one call and fails with the wrapped exception. |
| MappedClassModel.FailureStopsRun | morphia/src/main/java/org/mongodb/morphia/mapping/MappedClass.java:174-206 | Once a prefix of the methods has failed, the run over the whole list is that failed run: no later method is called. |
| MappedClassModel.ThrowingMethodEndsRun | morphia/src/main/java/org/mongodb/morphia/mapping/MappedClass.java:183-206 | When the i-th method throws after the earlier ones returned, the run fails with the wrapped exception and its calls are the earlier calls followed by the throwing one, i+1 in all. |
| MappedClassModel.OnlyLastCallThrows | morphia/src/main/java/org/mongodb/morphia/mapping/MappedClass.java:174-206 | A call throws exactly when the run failed and it is the last call made; every earlier call returned. |
| MappedClassModel.ResultIsLastReturn | morphia/src/main/java/org/mongodb/morphia/mapping/MappedClass.java:197-199 | A successful run returns the document of the last call that returned a non-null document. |
| MappedClassModel.CallSeesPrefixDocument | morphia/src/main/java/org/mongodb/morphia/mapping/MappedClass.java:183-199 | The i-th call goes to the i-th method with the document left by the methods before it; the first call sees the input document. |
| MappedClassModel.NullResultsKeepDocument | morphia/src/main/java/org/mongodb/morphia/mapping/MappedClass.java:197-199 | When every call returned null, the run succeeds with the input document. |
| Mapping.MappedClass.RunLifecycleMethods | morphia/src/main/java/org/mongodb/morphia/mapping/MappedClass.java:174-200 | The loop that reassigns the running document makes exactly the calls and result of the specified run. That run is characterised by CallSeesPrefixDocument, ResultIsLastReturn, NullResultsKeepDocument, ThrowingMethodEndsRun and OnlyLastCallThrows. |
| MappedClassModel.RunInterceptors | morphia/src/main/java/org/mongodb/morphia/mapping/MappedClass.java:489-508 | A successful pass calls every interceptor; a pass never makes more calls than there are interceptors; a failed pass made at least one callback and fails with the wrapped exception. |
| MappedClassModel.InterceptorCallsInOrder | morphia/src/main/java/org/mongodb/morphia/mapping/MappedClass.java:489-508 | The i-th callback goes to the i-th interceptor, with the event, the entity and the same document. |
| MappedClassModel.FailureStopsPass | morphia/src/main/java/org/mongodb/morphia/mapping/MappedClass.java:489-508 | Once a prefix of the interceptors has failed, the pass over the whole list is that failed pass: no later interceptor is called. |
| MappedClassModel.ThrowingInterceptorEndsPass | morphia/src/main/java/org/mongodb/morphia/mapping/MappedClass.java:489-508 | When the i-th interceptor throws after the earlier ones returned, the pass fails and its callbacks are the earlier ones followed by the throwing one. |
| MappedClassModel.OnlyLastCallbackThrows | morphia/src/main/java/org/mongodb/morphia/mapping/MappedClass.java:489-508 | A callback throws exactly when the pass failed and it is the last callback made. |
| Mapping.MappedClass.CallGlobalInterceptors | morphia/src/main/java/org/mongodb/morphia/mapping/MappedClass.java:489-508 | The interceptor loop makes exactly the callbacks of the specified pass, in interceptor order, each with the event, the entity and the input document, and stops at the first exception. |
| MappedClassModel.CallLifecycle | morphia/src/main/java/org/mongodb/morphia/mapping/MappedClass.java:157-209 | The method calls are those of the run over the event's registered methods (none when none is registered). If that run fails, the dispatch fails with it and no interceptor is called. Otherwise the interceptors get the callbacks of the pass over the ORIGINAL input document, the dispatch succeeds exactly when that pass does, and then it returns the run's document (the input document when no method is registered). |
| Mapping.MappedClass.CallLifecycleMethods | morphia/src/main/java/org/mongodb/morphia/mapping/MappedClass.java:157-209 | Adds exactly the listener classes of the event's pairs to the instance cache without disturbing cached entries, then produces exactly the specified dispatch. |
| ReferenceCodec.EncodeId | morphia/src/main/java/org/mongodb/morphia/mapping/codec/ReferenceHandler.java:139-157 | Succeeds exactly when the id can be read. The result is a `DBRef` to the related collection unless the reference is idOnly, and extracting from it gives back the value's id (a `Key`'s id or the id-field value). |
| ReferenceCodec.ExtractId | morphia/src/main/java/org/mongodb/morphia/mapping/codec/ReferenceHandler.java:152-157 | Succeeds exactly when the reference is idOnly or the stored value is a `DBRef`; a null pointer throws NullPointerException. |
| ReferenceCodec.CollectIdValues | morphia/src/main/java/org/mongodb/morphia/mapping/codec/ReferenceHandler.java:120-137 | A collection or array becomes a list of the same length whose i-th entry encodes the i-th element, failing if any element fails; any other value becomes `encodeId` of it. |
| ReferenceCodec.AllOkFirstFailure | morphia/src/main/java/org/mongodb/morphia/mapping/codec/ReferenceHandler.java:124-131 | A failing collection reports the exception of its first failing element, as the loop throws at the first one. |
| ReferenceCodec.ExtractIds | morphia/src/main/java/org/mongodb/morphia/mapping/codec/ReferenceHandler.java:68-72 | The ids have the list's length and order, and succeed exactly when every element is a reference. |
| ReferenceCodec.ExtractIdsFirstFailure | morphia/src/main/java/org/mongodb/morphia/mapping/codec/ReferenceHandler.java:70-72 | Extraction fails with the exception of the first element that is not a reference. |
| ReferenceCodec.ListRoundTrip | morphia/src/main/java/org/mongodb/morphia/mapping/codec/ReferenceHandler.java:120-157 | Extracting the ids from an encoded list of entities gives, position by position, the entities' ids. |
| ReferenceCodec.ComputeIfAbsent | morphia/src/main/java/org/mongodb/morphia/mapping/codec/ReferenceHandler.java:77-78 | The mapping function runs exactly when the key has no non-null entry. Non-null entries are never overwritten and other keys are untouched. A successful call leaves the returned value in the cache. |
| ReferenceCodec.EntityCache.ComputeIfAbsentOf | morphia/src/main/java/org/mongodb/morphia/mapping/codec/ReferenceHandler.java:77-78 | The cache object's update follows the `computeIfAbsent` specification. |
| ReferenceCodec.Resolve | morphia/src/main/java/org/mongodb/morphia/mapping/codec/ReferenceHandler.java:75-79 | Without an exception every position is resolved; otherwise only a prefix is. |
| ReferenceCodec.FailureStopsResolve | morphia/src/main/java/org/mongodb/morphia/mapping/codec/ReferenceHandler.java:75-79 | After the first exception no later position is resolved. |
| ReferenceCodec.ResolvePrefix | morphia/src/main/java/org/mongodb/morphia/mapping/codec/ReferenceHandler.java:75-79 | Resolving more ids only extends the values already set. |
| ReferenceCodec.ResolveNeverOverwrites | morphia/src/main/java/org/mongodb/morphia/mapping/codec/ReferenceHandler.java:77-78 | Entries already in the entity cache are never overwritten. |
| ReferenceCodec.ResolveTouchesOnlyIds | morphia/src/main/java/org/mongodb/morphia/mapping/codec/ReferenceHandler.java:77-78 | Only the list's ids can gain a cache entry. |
| ReferenceCodec.ResolveValuesCached | morphia/src/main/java/org/mongodb/morphia/mapping/codec/ReferenceHandler.java:75-79 | With a batch result free of nulls, after the loop `list[i]` equals `entityCache[ids[i]]` for every resolved position. |
| ReferenceCodec.RepeatedIdsShareInstance | morphia/src/main/java/org/mongodb/morphia/mapping/codec/ReferenceHandler.java:75-79 | Repeated ids in one list resolve to the same instance. |
| ReferenceCodec.FirstOccurrenceBindsByPosition | morphia/src/main/java/org/mongodb/morphia/mapping/codec/ReferenceHandler.java:77-78 | An uncached id at its first occurrence is bound to the batch entity at the same position, matched by position and not by id. |
| ReferenceCodec.DuplicateIdsOverrunBatch | morphia/src/main/java/org/mongodb/morphia/mapping/codec/ReferenceHandler.java:74-78 | For ids `[a, a, b]` and a two-entity batch result, the third position throws `IndexOutOfBoundsException(2, 2)`. |
| ReferenceCodec.ReferenceHandler.GetIdField | morphia/src/main/java/org/mongodb/morphia/mapping/codec/ReferenceHandler.java:42-47 | Fetches the related class's id field while the cached one is null; afterwards returns the cached one unchanged. |
| ReferenceCodec.ReferenceHandler.EncodeValue | morphia/src/main/java/org/mongodb/morphia/mapping/codec/ReferenceHandler.java:115-118 | The encoded value uses the handler's idOnly setting, its lazily fetched id field and the related class's collection name. |
| ReferenceCodec.ReferenceHandler.EncodeProperty | morphia/src/main/java/org/mongodb/morphia/mapping/codec/ReferenceHandler.java:96-113 | Writes nothing when the property is not serialised and a null for a null value; otherwise it writes the name and then the encoded value. If encoding throws, or the encoded id is null so that no codec can be looked up, the name has already been written and the error is returned. Only encoding a non-null value fetches the id field; otherwise it is unchanged. |
| ReferenceCodec.ReferenceHandler.ExtractListIds | morphia/src/main/java/org/mongodb/morphia/mapping/codec/ReferenceHandler.java:68-72 | The first loop of `set` computes exactly the extracted ids. |
| ReferenceCodec.ReferenceHandler.ResolveInto | morphia/src/main/java/org/mongodb/morphia/mapping/codec/ReferenceHandler.java:75-79 | The `list.set` loop writes the resolved values over a prefix of the array in place, leaves the rest, and updates the cache to the specified resolution. |
| ReferenceCodec.ReferenceHandler.SetList | morphia/src/main/java/org/mongodb/morphia/mapping/codec/ReferenceHandler.java:64-84 | A bad element fails before any query, touching nothing. Otherwise there is exactly one `FindIn(ids)` query, the list and cache are resolved in place, and the property becomes the batch result unless that is shorter than the list. |
| ReferenceCodec.ReferenceHandler.SetSingle | morphia/src/main/java/org/mongodb/morphia/mapping/codec/ReferenceHandler.java:85-92 | Returns the cached entity for the id. It queries `_id == id` exactly when the id is not cached, and stores a non-null result. |

## Left out

- Mapper.getMappedClass, the descriptor registry: the superclass and interface descriptors are represented by their types, which is all that `equals` and `isSubType` compare.
- Method.invoke, setAccessible and the interceptor callbacks become the `Invoke` and `Intercept` function parameters. Their effects on the entity are not modelled, only the document they return or the exception they throw.
- The object factory behind getOrCreateInstance: a new instance is an object of the class with a fresh identity.
- The race on the listener-instance cache and its error log (MappedClass.java lines 516-521), and all logging.
- validate and MappingValidator are not part of this model.
- decodeProperty, the BSON codecs and the codec registry are not part of this model. The BSON writer is a list of tokens.
- DocumentToDBRefTransformer is not part of this model: a stored reference reaches `extractId` as a `DBRef` value or a bare id.
- MongoCollection.find and Filters (network I/O): the batch result is a function of the id list, and the single lookup is a map from id to entity.
- ToLower: lower-cases ASCII letters only. Java's locale-dependent Unicode case mapping is not modelled.
- ReferenceCodec.EncodeId: the MongoDB driver's `DBRef` constructor (ReferenceHandler.java line 147) is not part of this model, so its null-id check is not modelled. A non-idOnly reference to an entity with a null id, such as an unsaved entity or a `Key` with a null id, encodes as `DBRef(collection, null)`, and `EncodeProperty` writes it.
- ReferenceCodec.FieldValue: reflection's field access is modelled as a lookup of the Java field name in the object. An object without that field stands for an object of the wrong class, which throws IllegalArgumentException.
- ReferenceCodec.ReferenceHandler.EncodeValue: fetches the id field before encoding, where the source fetches it only on reaching a value that is not a `Key`. The encoded result is the same; only the moment the id field is cached differs.
- ReferenceCodec.ReferenceHandler.SetList and SetSingle: Java's `set` takes an `Object` and branches on `instanceof List`. The two branches are two methods, because an in-place list is an array here and other values are plain values. The property accessor's write is the returned `Assigned` value.
- ReferenceCodec.EntityCache.ComputeIfAbsentOf: the mapping function's value is passed in already computed. It is consulted only when the key is absent, which is when the source would call it.
- MappedClassModel.NullResultsKeepDocument: a `Document` is a value here. In Java a lifecycle method that takes the document may change it in place (MappedClass.java lines 187 and 194), and the interceptors at line 203 then see that change; the model keeps the input document unchanged for them and for a run whose calls all return null.
- A lifecycle method that returns something other than a `Document`: the cast at MappedClass.java line 198 throws ClassCastException. The `Invoke` parameter returns a document or null.
- Mapping.MappedClass.GetOrCreateInstance: the object factory's `createInstance` (MappedClass.java line 515) cannot fail here, so callLifecycleMethods never throws while creating listener instances.
- ReferenceCodec.ReferenceHandler.SetList and SetSingle: `find(...)` (ReferenceHandler.java lines 74 and 87-90) cannot throw here; the batch result and the single lookup always answer.
- Mapping.MappedClass.RunLifecycleMethods: every exception is wrapped as one `Wrapped` error; the original exception inside the RuntimeException is not kept.
- The transitive sub-type walk of the query validator (QueryValidator is not part of this model).
