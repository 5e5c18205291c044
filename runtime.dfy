/**
 * The run-time values the mapping layer handles: Java objects as plain data,
 * the BSON document a lifecycle method may replace, and the exceptions that
 * abort an operation.
 */
module Runtime {

  /** A Java reference that may be null, when null is an answer rather than a value. */
  datatype Option<+T> = None | Some(value: T)

  /** The outcome of an operation that may throw. */
  datatype Result<+T> = Ok(value: T) | Err(error: Exception) {
    predicate IsFailure() { Err? }

    function PropagateFailure<U>(): Result<U>
      requires Err?
    {
      Err(error)
    }

    function Extract(): T
      requires Ok?
    {
      value
    }
  }

  /** The Java exceptions the modelled code can raise. */
  datatype Exception =
    | NullPointer
    | ClassCast
    | IllegalArgument
    | IndexOutOfBounds(index: int, size: int)
    | Mapping(message: string)
    | Wrapped(cause: string)   // a RuntimeException wrapping a lifecycle failure

  type ClassName = string

  /**
   * A Java value as the reference codec sees it. An object carries its class,
   * an identity (`oid`) and its field values by Java field name; `Key` is
   * org.mongodb.morphia.Key and `DBRef` is com.mongodb.DBRef.
   */
  datatype Value =
    | Null
    | Scalar(repr: string)
    | Obj(cls: ClassName, oid: nat, fields: map<string, Value>)
    | Key(collection: string, id: Value)
    | DBRef(collection: string, id: Value)
    | Coll(items: seq<Value>)   // a java.util.Collection, in iteration order
    | Arr(items: seq<Value>)    // an Object[] array

  /** An org.bson.Document; its contents only flow through the model. */
  datatype Document = Document(entries: map<string, Value>)

  /** `Map.get`: null when the key is absent. */
  function Lookup<K>(m: map<K, Value>, k: K): (v: Value)
    ensures v != Null ==> k in m && m[k] == v
    ensures k !in m ==> v == Null
  {
    if k in m then m[k] else Null
  }
}
