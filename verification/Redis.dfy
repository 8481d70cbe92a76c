/** The few Redis notions every component shares: optional values, expiry deadlines on one
    millisecond clock, and the enumeration that HGETALL hands to a script. */
module Redis {
  datatype Option<+T> = None | Some(value: T)

  // Identities are compared for equality only, so numbers stand for the id strings.
  type UserId = int
  type InstanceId = int

  /** A key with deadline None never expires; otherwise it is gone from the deadline on. */
  predicate Expired(deadline: Option<int>, clock: int) {
    deadline.Some? && deadline.value <= clock
  }

  ghost predicate Distinct<T>(s: seq<T>) {
    forall i, j :: 0 <= i < j < |s| ==> s[i] != s[j]
  }

  /** s lists every element of elems exactly once, in some order. */
  ghost predicate Enumerates<T(!new)>(s: seq<T>, elems: set<T>) {
    Distinct(s) && forall x :: x in s <==> x in elems
  }

  lemma EnumerateOneMore<T(!new)>(s: seq<T>, elems: set<T>, x: T)
    requires Enumerates(s, elems) && x !in elems
    ensures Enumerates(s + [x], elems + {x})
  {
    assert x !in s;
  }

  /** Redis keeps hash fields in an order of its own. */
  method AnyOf<T>(s: set<T>) returns (x: T)
    requires s != {}
    ensures x in s
  {
    x :| x in s;
  }

  ghost function Pick<T>(s: set<T>): (x: T)
    requires s != {}
    ensures x in s
  {
    var x :| x in s; x
  }
}
