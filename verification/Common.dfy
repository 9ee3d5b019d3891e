/** Option, bytes and a few facts about sequences shared by the modules of the project. */
module Common {

  datatype Option<+T> = None | Some(value: T)

  newtype Byte = b: int | 0 <= b < 256
  type Bytes = seq<Byte>

  /** No element occurs twice. */
  ghost predicate Distinct<T>(s: seq<T>) {
    forall i, j :: 0 <= i < j < |s| ==> s[i] != s[j]
  }

  /** `s` lists every element of `all` exactly once. */
  ghost predicate Enumerates<T(!new)>(s: seq<T>, all: set<T>) {
    && Distinct(s)
    && (forall x :: x in s <==> x in all)
  }

  /** Flattens a sequence of sequences. */
  function Concat<T>(parts: seq<seq<T>>): seq<T> {
    if parts == [] then [] else parts[0] + Concat(parts[1..])
  }
}
