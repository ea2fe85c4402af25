/** Results and errors of the tree operations. */
module Results {

  datatype TreeError =
    | TreeIsFull
    | IncorrectBatchSize
    | LeafExists
    | InvalidProof
    | InvalidIndex
    | ItemNotFound
    | DuplicateKey  // the database refuses a second record with the same _id
    | Panic         // an `expect` or an out-of-range index

  datatype Result<+T> = Ok(value: T) | Err(error: TreeError) {
    predicate IsFailure() {
      Err?
    }

    function PropagateFailure<U>(): Result<U>
      requires Err?
    {
      Err(error)
    }

    function Extract(): T
      requires Ok?
    {
      value
    }
  }
}
