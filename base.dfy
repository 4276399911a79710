/** Values shared by every part of the model. */
module Base {

  /** A value that may be missing. */
  datatype Option<T> = None | Some(value: T)

  /** The outcome of an operation that can raise an exception in the Python code. */
  datatype Result<T, E> = Ok(value: T) | Err(error: E)

  /** A 2-D point: the (x, y) pair the Python code keeps. Its coordinates are
      Python floats there and exact reals here. */
  datatype Point = Point(x: real, y: real)

  /** A frame that was read successfully, with what the per-frame stage made
      of it, and whether 'q' was pressed after it was shown. */
  datatype Read<T> = Read(content: T, quit: bool)

  /** The index of the first read frame after which 'q' was pressed, or the
      number of frames when it never was. */
  function QuitIndex<T>(frames: seq<Read<T>>): (q: nat)
    ensures q <= |frames|
    ensures forall j :: 0 <= j < q ==> !frames[j].quit
    ensures q < |frames| ==> frames[q].quit
  {
    if frames == [] then 0
    else if frames[0].quit then 0
    else 1 + QuitIndex(frames[1..])
  }

  /** No element occurs twice. */
  predicate NoDuplicates<T(==)>(s: seq<T>)
  {
    forall i, j :: 0 <= i < j < |s| ==> s[i] != s[j]
  }
}
