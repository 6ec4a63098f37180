/** Small definitions shared by the other modules. */
module Base {

  datatype Option<+T> = None | Some(value: T)

  newtype byte = x: int | 0 <= x < 256

  /** The concatenation of a sequence of sequences. */
  function Flatten<T>(s: seq<seq<T>>): (r: seq<T>)
  {
    if s == [] then [] else Flatten(s[..|s| - 1]) + s[|s| - 1]
  }

  lemma {:induction false} FlattenSnoc<T>(s: seq<seq<T>>, x: seq<T>)
    ensures Flatten(s + [x]) == Flatten(s) + x
  {
  }

  /** The last of them grows by x. */
  lemma {:induction false} FlattenAppend<T>(s: seq<seq<T>>, x: T)
    requires s != []
    ensures var n := |s| - 1;
            Flatten(s[..n] + [s[n] + [x]]) == Flatten(s) + [x]
  {
    var n := |s| - 1;
    var r := s[..n] + [s[n] + [x]];
    assert r[..n] == s[..n];
  }
}
