/** What several modules share. */
module Common {

  datatype Option<+T> = None | Some(value: T)

  const TWO_64: int := 0x1_0000_0000_0000_0000

  /** The second map has only grown from the first. */
  predicate Extends<K, V(==)>(m: map<K, V>, m': map<K, V>) {
    forall a :: a in m ==> a in m' && m'[a] == m[a]
  }
}
