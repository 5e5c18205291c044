/**
 * What Java reflection and the BSON ClassModel hand to the mapper, as data:
 * classes with their superclass chain, declared methods and interfaces,
 * annotations, and the field models of a class.
 */
module Reflection {
  import opened Runtime

  /** The five lifecycle annotations, in the order MappedClass lists them. */
  datatype Event = PrePersist | PreSave | PreLoad | PostPersist | PostLoad

  const LifecycleAnnotations: seq<Event> := [PrePersist, PreSave, PreLoad, PostPersist, PostLoad]

  /** The annotation types the mapping layer asks about. */
  datatype Kind =
    | EntityKind
    | EmbeddedKind
    | EntityListenersKind
    | IdKind
    | VersionKind
    | ReferenceKind
    | LifecycleKind(event: Event)
    | OtherKind(name: string)

  /**
   * A class as reflection describes it. The superclass is the class itself,
   * so the chain up to java.lang.Object is finite by construction.
   */
  datatype JClass = JClass(
    name: ClassName,
    simpleName: string,
    superclass: Option<JClass>,
    interfaces: seq<JClass>,
    isStatic: bool,
    isMemberClass: bool,
    declaredMethods: seq<JMethod>)

  /** A declared method: its annotations and its number of parameters. */
  datatype JMethod = JMethod(
    declaringClass: ClassName,
    name: string,
    isStatic: bool,
    annotations: set<Kind>,
    arity: nat)

  /**
   * A type-level annotation instance. `value` is @Entity's collection name;
   * `classes` is @EntityListeners' list of listener classes.
   */
  datatype Annotation = Annotation(kind: Kind, value: string, classes: seq<JClass>)

  /** A field model of the ClassModel, with the flags MappedField derives from it. */
  datatype FieldModel = FieldModel(
    name: string,
    storedName: string,
    annotations: set<Kind>,
    isTransient: bool)

  /** org.bson.codecs.pojo.ClassModel: the type, its annotations and its fields, in declaration order. */
  datatype ClassModel = ClassModel(
    clazz: JClass,
    annotations: seq<Annotation>,
    fieldModels: seq<FieldModel>)

  /** The mapping of one persisted field. */
  datatype MappedField = MappedField(
    declaringClass: ClassName,
    javaFieldName: string,
    nameToStore: string,
    annotations: set<Kind>)

  /** `new MappedField(mappedClass, model)`. */
  function MappedFieldOf(owner: ClassName, model: FieldModel): MappedField {
    MappedField(owner, model.name, model.storedName, model.annotations)
  }

  /** The option of MapperOptions that this core consults. */
  datatype MapperOptions = MapperOptions(useLowerCaseCollectionNames: bool)

  /** Mapper.IGNORED_FIELDNAME, @Entity's default value. */
  const IgnoredFieldName: string := "."

  const ObjectClassName: ClassName := "java.lang.Object"
}
