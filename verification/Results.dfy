/** Outcomes: the source's Option and Result, and the errors of the block reader. */
module Results {

  datatype Option<+T> = None | Some(value: T)

  datatype Result<+T, +E> = Ok(value: T) | Err(error: E) {
    predicate IsFailure() { Err? }

    function PropagateFailure<U>(): Result<U, E>
      requires Err?
    {
      Err(error)
    }

    function Extract(): T
      requires Ok?
    {
      value
    }
  }

  /** The block reader's errors, and the one outcome that is not an error value:
      an out-of-range slice or an arithmetic underflow, on which the program aborts. */
  datatype BlockError =
    | BlockTooSmall
    | ChecksumMismatch
    | InvalidVarint
    | UnexpectedEof
    | CorruptedEntry
    | Panicked

  /** What a reader returns, and where it leaves the position. */
  datatype Read<+T> = Read(value: T, pos: nat)

  /** Items already read, before those still to come. */
  function Prepend<T, E>(done: seq<T>, rest: Result<Read<seq<T>>, E>): Result<Read<seq<T>>, E> {
    if rest.Err? then rest else Ok(Read(done + rest.value.value, rest.value.pos))
  }

  /** A read loop may move the next item to those already read. */
  lemma PrependStep<T, E>(done: seq<T>, item: T, rest: Result<Read<seq<T>>, E>)
    ensures Prepend(done + [item], rest) == Prepend(done, Prepend([item], rest))
  {
    if rest.Ok? {
      assert done + [item] + rest.value.value == done + ([item] + rest.value.value);
    }
  }

  lemma PrependNothing<T, E>(rest: Result<Read<seq<T>>, E>)
    ensures Prepend([], rest) == rest
  {
    if rest.Ok? {
      assert [] + rest.value.value == rest.value.value;
    }
  }
}
