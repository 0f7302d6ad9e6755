/** Types shared by every part of the model. */
module Common {

  datatype Option<+T> = None | Some(value: T)

  datatype Result<+T, +E> = Ok(value: T) | Err(error: E)

  /** Documents are identified by opaque keys; only equality of keys matters. */
  type PlayerId = nat
  type GameId = nat

  datatype Friendship = Friendship(source: PlayerId, target: PlayerId)

  datatype ClassName = Scout | Soldier | Pyro | Demoman | Heavy | Engineer | Medic | Sniper | Spy

  /** A list is what is before its last element, and that element. */
  lemma Snoc<T>(s: seq<T>)
    requires s != []
    ensures s == s[..|s|-1] + [s[|s|-1]]
  {
  }

  lemma AppendLater<T>(a: seq<T>, b: seq<T>, last: T)
    ensures a + (b + [last]) == (a + b) + [last]
  {
  }
}
