/** Small notions shared by the models. */
module Common {

  datatype Option<+T> = None | Some(value: T)

  /** Two maps hold the same value, or the same absence, under a key. */
  ghost predicate SameAt<K, V>(a: map<K, V>, b: map<K, V>, k: K) {
    (k in a <==> k in b) && (k in a ==> a[k] == b[k])
  }
}
