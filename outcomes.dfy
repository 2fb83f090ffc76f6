/** Values that stand for the .NET null reference and for the exceptions the core can throw. */
module Outcomes {

  /** A reference or string that may be null. */
  datatype Nullable<+T> = Null | NonNull(value: T)

  /** The exceptions raised along the paths of the core, by kind. */
  datatype Fault =
    | MoreThanOneMatch           // SingleOrDefault found several matching elements
    | DuplicateEntityPermission  // the store's Insert: "Duplicate EntityPermission."
    | EntityPermissionNotFound   // the store's Update: no record with that Id
    | CollectionModified         // a foreach over a list that was changed under it
    | NullReference              // ToString() called on a null property value
    | DuplicateKey               // Dictionary.Add with a key that is already present
    | PropertyTypeMismatch       // PropertyInfo.SetValue with a string on a non-string property

  /** A call that returns a value or throws. */
  datatype Result<+T> = Success(value: T) | Failure(error: Fault)

  /** A call that returns nothing or throws. */
  datatype Outcome = Pass | Fail(error: Fault)
}
