/** What several parts of the model share. */
module Common {
  datatype Option<T> = None | Some(value: T)

  /** No element occurs twice. */
  predicate Distinct<T(==)>(s: seq<T>) {
    forall i, j :: 0 <= i < j < |s| ==> s[i] != s[j]
  }

  /** What the environment grants or refuses, such as the memory of malloc: whether it
      grants the next requests is a list fixed beforehand, which may be any list at all;
      after its end nothing is granted. */
  class Supply {
    var grants: seq<bool>
    ghost var denials: nat  // requests that were not granted

    constructor (grants: seq<bool>)
      ensures this.grants == grants && denials == 0
    {
      this.grants, denials := grants, 0;
    }

    predicate Granted()
      reads this`grants
    {
      grants != [] && grants[0]
    }

    method Request() returns (ok: bool)
      modifies this
      ensures ok == old(Granted()) && grants == (if old(grants) == [] then [] else old(grants)[1..])
      ensures denials == old(denials) + if ok then 0 else 1
    {
      ok := Granted();
      if grants != [] { grants := grants[1..]; }
      if !ok { denials := denials + 1; }
    }
  }
}
