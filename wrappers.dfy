/** Result and option types shared by every module, and the error conditions the
    library raises (thrown exceptions and Node.js RangeErrors). */
module Wrappers {
  datatype Option<+T> = None | Some(value: T)

  /** Codes of the library's own error class. */
  datatype ErrorCode =
    | ActionsValidationError
    | NodeNotFound
    | PortNotSubscribed
    | NodePortsLimit
    | UniverseMaxSizeReached
    | CurrentPacketDataLimit

  datatype Error =
    | SchemaKeyMissing       // a schema key has no value in the payload being encoded
    | RangeError             // a Node.js Buffer / typed-array bounds or value check
    | PacketSizeMismatch     // the buffer length differs from the schema's byte total
    | ChannelAboveLength     // a DMX channel above the packet's `length`
    | LibError(code: ErrorCode)
    | Invalid(issues: seq<string>)   // device action validation, one message per issue
    | NoUniverseOnPort(port: int)    // a sync on a port with no attached universe
    | HeaderInvalid          // the header schema lacks its ID string or opCode size
    | TypeError              // a property read on `undefined`, or a method called on a non-array

  datatype Result<+T> = Ok(value: T) | Err(error: Error)

  /** The outcome of an operation that returns nothing but may throw. */
  datatype Outcome = Pass | Fail(error: Error)
}
