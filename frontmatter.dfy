/**
 * Parsed YAML frontmatter, as the Markdown loader hands it to the build
 * scripts, and the JavaScript truthiness the scripts test it with.
 */
module Frontmatter {

  /** A frontmatter value. YAML dates arrive as `Date` objects (milliseconds since the epoch). */
  datatype Value =
    | Undefined            // the key is absent
    | Null
    | Bool(b: bool)
    | Num(n: int)
    | Str(s: string)
    | Date(ms: int)
    | Compound             // an array or an object

  /** The `data` record of one post. */
  type Data = map<string, Value>

  /** `data[key]`: a missing key reads as `undefined`. */
  function Get(data: Data, key: string): Value {
    if key in data then data[key] else Undefined
  }

  /** JavaScript truthiness: `false`, `0`, `""`, `null` and `undefined` are falsy; every object is truthy. */
  predicate Truthy(v: Value) {
    match v
    case Undefined => false
    case Null => false
    case Bool(b) => b
    case Num(n) => n != 0
    case Str(s) => s != ""
    case Date(_) => true
    case Compound => true
  }

  /** A post may be published: it is not encrypted (`password`), not a `draft` and not hidden (`hide`, any truthy value). */
  predicate IsPublic(data: Data) {
    !Truthy(Get(data, "password")) && !Truthy(Get(data, "draft")) && !Truthy(Get(data, "hide"))
  }

  /**
   * `+new Date(v)`: the timestamp a value denotes. Parsing a date string is
   * the job of the JavaScript runtime and is given by `parseDate`.
   */
  function Timestamp(v: Value, parseDate: string -> int): int {
    match v
    case Date(ms) => ms
    case Num(n) => n
    case Str(s) => parseDate(s)
    case Bool(b) => if b then 1 else 0
    case _ => 0
  }
}
