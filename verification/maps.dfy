/** Facts about the built-in `map` type shared by the dictionary models. */
module Maps {

  /** Two maps with the same keys that agree on every key are the same map. */
  lemma MapExtensional<K, V>(m1: map<K, V>, m2: map<K, V>)
    requires m1.Keys == m2.Keys
    requires forall k :: k in m1 ==> m1[k] == m2[k]
    ensures m1 == m2
  {
  }
}
