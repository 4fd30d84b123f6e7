/** The part of CarthageKit's `CarthageError` that the archive command and the
    environment probe raise. */
module CarthageErrors {

  datatype CarthageError =
    | InvalidArgument(description: string)
    | MissingEnvironmentVariable(variable: string)
      /** Any error raised by a collaborator outside this model (the zip step). */
    | Other(reason: string)
}
