/** Small shared definitions: the optional value, the venue's product types, a witness for a non-empty set. */
module Basics {
  datatype Option<+T> = None | Some(value: T)

  datatype Product = Spot | Perp | Inverse | Delivery | Options

  /** Exhibits a member, so that a loop may go on to choose one. */
  lemma Pick<T>(s: set<T>) returns (member: T)
    requires s != {}
    ensures member in s
  {
    member :| member in s;
  }

  /** Maps with the same keys and values are equal. */
  lemma SameMap<K, V>(a: map<K, V>, b: map<K, V>)
    requires forall k :: k in a <==> k in b
    requires forall k :: k in a && k in b ==> a[k] == b[k]
    ensures a == b
  {
  }
}
