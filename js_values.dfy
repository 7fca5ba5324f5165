/** Values that cross the boundary between the loaders and the JavaScript code
    that calls them: argument shapes, callback identities and exported values. */
module JsValues {

  datatype Option<+T> = None | Some(value: T)

  datatype Result<+T, +E> = Ok(value: T) | Err(error: E)

  /** A JavaScript function, known to the loader only by its identity. */
  type Callback = nat

  /** The shapes of a JavaScript argument that the argument checks distinguish.
      `Other` stands for every remaining value (numbers, booleans, null, plain
      objects) and records only whether it is truthy. */
  datatype JsValue =
    | Undefined
    | Str(s: string)
    | Arr(items: seq<string>)
    | Fn(f: Callback)
    | Other(truthy: bool)

  /** JavaScript truthiness: the empty string and undefined are falsy, every
      array and every function is truthy. */
  predicate Truthy(v: JsValue)
  {
    match v
    case Undefined => false
    case Str(s) => s != ""
    case Arr(_) => true
    case Fn(_) => true
    case Other(t) => t
  }

  /** The value a module exports, as the loaders see it: `undefined` until a
      factory has run, and afterwards the (opaque) value the factory returned
      when applied to the given arguments. */
  datatype Export = Undef | ResultOf(fn: Callback, args: seq<Export>)

  /** How a JavaScript object expresses a property key: `undefined` as a key
      becomes the string "undefined". */
  function KeyOf(name: Option<string>): string
  {
    match name
    case Some(n) => n
    case None => "undefined"
  }
}
