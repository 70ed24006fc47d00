/** The error values of the storage code, and the result type its `?` operator propagates. */
module Results {

  datatype Error =
    | AtaError            // the drive reported an error for this sector
    | DiskFull            // no free cluster left
    | DirectoryFull       // no unused slot in the root directory
    | NotFound            // no directory entry of that name
    | ArithmeticPanic     // checked u32 arithmetic overflowed: the kernel stops

  datatype Result<+T> = Success(value: T) | Failure(error: Error) {

    predicate IsFailure() {
      Failure?
    }

    function PropagateFailure<U>(): Result<U>
      requires Failure?
    {
      Failure(error)
    }

    function Extract(): T
      requires Success?
    {
      value
    }
  }
}
