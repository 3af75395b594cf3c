/** Bytes, and sequences cut into pieces. */
module Bytes {

  type byte = b: int | 0 <= b < 256

  /** The pieces put together in order. */
  function Flatten<T>(pieces: seq<seq<T>>): seq<T> {
    if pieces == [] then [] else pieces[0] + Flatten(pieces[1..])
  }
}
