/**
 * The one helper of the engine: deciding whether `hot` is consumed with
 * `for await` or with a plain `for ... of` (src/coolit.ts, "Utils").
 */
module Utils {

  /** The property keys the operator cares about; any other key is named. */
  datatype Key = AsyncIteratorKey | IteratorKey | NamedKey(name: string)

  /**
   * A JavaScript value as `typeof` and the `in` operator see it. The keys of
   * an object or a function are its own and its inherited property keys.
   */
  datatype JsValue =
    | Undefined
    | Null
    | Boolean
    | Number
    | BigInt
    | Text
    | Symbol
    | Object(keys: set<Key>)
    | Function(keys: set<Key>)

  /** The result of JavaScript's `typeof`, which answers "object" for `null`. */
  function TypeOf(x: JsValue): string
  {
    match x
    case Undefined => "undefined"
    case Null => "object"
    case Boolean => "boolean"
    case Number => "number"
    case BigInt => "bigint"
    case Text => "string"
    case Symbol => "symbol"
    case Object(_) => "object"
    case Function(_) => "function"
  }

  /**
   * True exactly for a non-null plain object that has `Symbol.asyncIterator`:
   * a function carrying that key is still taken through the synchronous loop,
   * because its `typeof` is "function".
   */
  function IsAsyncIterableIterator(x: JsValue): (r: bool)
    ensures r <==> x.Object? && AsyncIteratorKey in x.keys
  {
    TypeOf(x) == "object" && x != Null && AsyncIteratorKey in x.keys
  }
}
