/** Shared result and error types for the layer-store model. */
module Base {

  datatype Option<+T> = None | Some(value: T)

  /** The ways an operation of the toolbelt can fail. Each constructor stands
      for an exception the source throws (or lets propagate). */
  datatype Error =
    | UnsupportedDriver(driver: string)   // imageRootDir on an unknown driver
    | UnsupportedOperation                // diffPaths on a driver other than aufs/overlay2
    | MetadataReadFailure(path: string)   // a diff-id, cache-id or link file is missing
    | MissingHashPart(id: string)         // an id without ':' leaves path.join an undefined part
    | EmptyLayerList                      // getAllChainIds on no layers yields an undefined id
    | MkdirFailure(path: string)          // mkdir failed with something other than EEXIST
    | ExecFailure(command: string)        // a mount command exited non-zero
    | CouldNotParse(image: string)        // the image-name pattern did not match
    | InvalidImageName                    // a non-empty digest failed the digest pattern
    | Thrown(reason: string)              // the caller's own callback threw

  datatype Result<+T> = Ok(value: T) | Err(error: Error) {

    predicate IsFailure() {
      Err?
    }

    function PropagateFailure<U>(): Result<U>
      requires Err?
    {
      Err(error)
    }

    function Extract(): T
      requires Ok?
    {
      value
    }
  }
}
