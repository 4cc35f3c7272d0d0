/** What others may do to shared state between our steps. */
module Interferences {
  /** The state after others had their n-th turn. */
  type Interference<!K, !V> = (nat, map<K, V>) -> map<K, V>

  /** Others neither change nor remove this entry once it is there. */
  ghost predicate Keeps<K(!new), V(!new)>(others: Interference<K, V>, k: K) {
    forall n, state :: k in state ==> k in others(n, state) && others(n, state)[k] == state[k]
  }

  /** Others do not touch this entry at all: they do not create it either. */
  ghost predicate Leaves<K(!new), V(!new)>(others: Interference<K, V>, k: K) {
    Keeps(others, k) && forall n, state :: k !in state ==> k !in others(n, state)
  }
}
