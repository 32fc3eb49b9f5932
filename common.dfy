/** Small result types shared by the model. */
module Common {

  /** A value that may be absent: a NULL pointer, an unmatched table entry. */
  datatype Option<+T> = None | Some(value: T)

  /** What a routine of the user-level library does: it returns a value, or it
      panics, which ends the calling environment. */
  datatype Outcome<+T> = Return(value: T) | Abort

  /** A second store to the same key hides the first. */
  lemma OverwriteTwice<K, V>(m: map<K, V>, k: K, a: V, b: V)
    ensures m[k := a][k := b] == m[k := b]
  {
    assert m[k := a][k := b].Keys == m[k := b].Keys;
  }
}
