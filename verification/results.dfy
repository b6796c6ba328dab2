/** Optional values and failing computations, used in place of Java's null
    and checked exceptions. */
module Results {

  datatype Option<+T> = None | Some(value: T)

  /** The outcome of an operation that may fail with a human-readable message,
      as the Maven plugin's `MojoExecutionException` carries one. */
  datatype Result<+T> = Ok(value: T) | Err(message: string)
}
