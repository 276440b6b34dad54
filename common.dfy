/** Option and Result wrappers shared by the server and client models. */
module Common {

  datatype Option<+T> = None | Some(value: T)

  datatype Result<+T, +E> = Success(value: T) | Failure(error: E)

  function Max0(n: int): (r: nat)
    ensures r >= n && (r == 0 || r == n)
  {
    if n < 0 then 0 else n
  }

  /** The elements of a sequence, as a set. */
  function Elements<T>(s: seq<T>): set<T>
  {
    set x | x in s
  }

  /** `list(s)`: every element once, in an order of the set's choosing. */
  method ListOf<T>(s: set<T>) returns (list: seq<T>)
    ensures Elements(list) == s && |list| == |s|
    ensures forall i, j :: 0 <= i < j < |list| ==> list[i] != list[j]
  {
    list := [];
    var rest := s;
    while rest != {}
      invariant rest <= s
      invariant Elements(list) == s - rest
      invariant |list| + |rest| == |s|
      invariant forall i, j :: 0 <= i < j < |list| ==> list[i] != list[j]
      decreases rest
    {
      var x :| x in rest;
      assert Elements(list + [x]) == Elements(list) + {x};
      list := list + [x];
      rest := rest - {x};
    }
  }
}
