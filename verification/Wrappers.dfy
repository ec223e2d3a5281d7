/** The two result shapes shared by the models of the wire and of the native layer. */
module Wrappers {
  datatype Option<+T> = None | Some(value: T)

  /** The elements of an optional value as a sequence of length zero or one. */
  function ToSeq<T>(o: Option<T>): seq<T> {
    match o
    case None => []
    case Some(v) => [v]
  }

  /** The least number of a set. */
  function Least(s: set<nat>): (least: nat)
    requires s != {}
    ensures least in s && forall i | i in s :: least <= i
  {
    LeastExists(s);
    var least :| least in s && forall i | i in s :: least <= i;
    least
  }

  lemma LeastExists(s: set<nat>)
    requires s != {}
    ensures exists least :: least in s && forall i | i in s :: least <= i
  {
    var least := LeastOf(s);
  }

  lemma {:induction false} LeastOf(s: set<nat>) returns (least: nat)
    requires s != {}
    ensures least in s && forall i | i in s :: least <= i
    decreases |s|
  {
    least :| least in s;
    var others := s - {least};
    assert forall i | i in s :: i == least || i in others;
    if others != {} {
      var other := LeastOf(others);
      if other < least {
        least := other;
      }
    }
  }
}
