/** The exceptions the core throws, one constructor per distinct message. */
module Errors {
  import opened Values

  datatype Error =
    // Storage
    | NotInitialized                          // "resource not yet initialized"
    | NoSuchResource(key: Value)              // get(key, true) on an absent key
    | NullIdentity                            // identity getter returned null
    | DuplicateIdentity                       // values.put replaced an earlier record
    | DuplicateUniqueKey(index: string, indexKey: string)
    | ValidationFailed(id: Value, message: string)
    | ResourceFileMissing(location: string)   // IOException opening the file
    | DecodeFailed(message: string)           // the reader could not decode the file
    | StaticInjectFailed(field: string)
    | NullPointer                             // a Java NullPointerException
    // GetterBuilder
    | DuplicateIdField
    | DuplicateIdMethod
    | MissingId
    | DuplicateIndexName(name: string)
    | IndexNameMismatch(first: string, other: string)
    // FieldSortComparator
    | SortFieldMissing
    // StorageManager
    | DuplicateDefinition
    | MissingDefinition
    // spreadsheets
    | FieldRowMissing(sheet: string)
    | ConversionFailed(field: string)
    // java.lang.String
    | StringIndexOutOfBounds
}
