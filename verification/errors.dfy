/** The errors the modelled code returns, one constructor per distinct cause. */
module Errors {
  import opened ByteStrings
  import opened GoValues

  datatype Error =
    | NotInitialized                          // "database was not initialized"
    | NoSuchBucket(bucket: Bytes)             // the source dereferences a nil bucket here
    | KeyRequired                             // the engine refuses an empty key
    | KeyTooLarge                             // the engine refuses a key over MaxKeySize bytes
    | ValueTooLarge                           // the engine refuses a value over MaxValueSize bytes
    | EncodeFailed                            // json.Marshal
    | DecodeFailed                            // json.Unmarshal
    | KindMismatch(field: Kind, operand: Kind) // "cannot compare different types"
    | NotImplemented(kind: Kind, op: int)     // "comparison not implemented"
    | FieldNotFound(name: Bytes)
    | NotFound
    | NilDestination
    | NotASlice
    | InvalidParameterKind(kind: Kind)        // InjectQuery on a non-struct
    | NilItem                                 // "cannot parse nil item"
    | EmptyQuery
    | NoIds                                   // the downloader accepted the URL but returned no job id
    | NameRequired                            // "name is required for adding a url"
    | Remote(message: Bytes)                  // an error from a network collaborator
    | Wrapped(context: string, inner: Error)  // fmt.Errorf("context: %w", inner)
}
