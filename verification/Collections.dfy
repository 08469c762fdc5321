/** Small containers and sequence facts shared by the whole model. */
module Collections {

  datatype Option<+T> = None | Some(value: T)

  /** The elements of a sequence, forgetting order and repetition. */
  ghost function Elements<T>(s: seq<T>): set<T> {
    set x | x in s
  }

  function Min(a: int, b: int): int {
    if a < b then a else b
  }

  function Max(a: int, b: int): int {
    if a < b then b else a
  }
}
