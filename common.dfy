/** Option, Result and the errors the tool raises. */
module Common {

  datatype Option<+T> = None | Some(value: T)

  /** The fatal errors of a run; each one aborts the process in the original tool. */
  datatype Error =
    | UsageError                        // `--version` missing from the arguments
    | NotAbsolute(path: string)         // a path argument that is not drive- or scheme-absolute
    | UnknownProjectReference(file: string) // a ProjectReference without a truthy `Include`
    | CannotFindReference(reference: string) // a setter whose reference is no longer in its group
    | NotInTree                         // no file without remaining dependencies
    | NoPropertyGroup                   // `PropertyGroup[0]` read on a document that has none
    | NoPackageReferenceList            // push onto a marker group that has no PackageReference list

  datatype Result<+T> = Ok(value: T) | Err(error: Error)

  /** Success or failure of an operation that only changes state. */
  datatype Outcome = Pass | Fail(error: Error)
}
