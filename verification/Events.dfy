/** The events a reader sends and a handler receives. */
module Events {
  import opened Bytes

  datatype Event =
    | Null
    | Bool(b: bool)
    | Int(n: int)
    | Uint(n: int)
    | Int64(n: int)
    | Uint64(n: int)
    | Double(literal: Text)
    | String(s: Text)
    | Key(s: Text)
    | StartObject
    | EndObject(count: nat)
    | StartArray
    | EndArray(count: nat)

  /** Counters of type SizeType wrap at 2^32. */
  function Increment(n: nat): nat {
    (n + 1) % 0x1_0000_0000
  }

  /**
   * What a parse depends on besides its input: the parse flags, the handler, which answers each
   * event knowing every event it was sent, and whether a decimal literal is in range of `double`.
   */
  datatype Config = Config(
    comments: bool,
    trailingCommas: bool,
    stopWhenDone: bool,
    validate: bool,
    accepts: seq<Event> -> bool,
    inRange: Text -> bool)
}
