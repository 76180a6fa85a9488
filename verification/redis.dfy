/**
 * The cache driver's side of the cache mapping: the values a cache read returns, its error
 * value, and the argument list that `write_redis_args` writes into.
 */
module Redis {
  import opened Strings

  datatype Value =
    | Nil
    | Int(i: int)
    | BulkString(bytes: seq<byte>)
    | Array(items: seq<Value>)
    | SimpleString(s: string)
    | Okay

  datatype ErrorKind = TypeError | ResponseError

  datatype RedisError = RedisError(kind: ErrorKind, description: string)

  /** A command's argument list under construction (`RedisWrite`). */
  class ArgWriter {
    var args: seq<seq<byte>>

    constructor ()
      ensures args == []
    {
      args := [];
    }

    /** Adds one argument after those already written. */
    method WriteArg(arg: seq<byte>)
      modifies this
      ensures args == old(args) + [arg]
    {
      args := args + [arg];
    }
  }
}
