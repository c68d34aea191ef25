/** Prekey ids, and counting the Kyber prekeys that peers have left. */
module Inventory {

  type Id = x: int | 0 <= x < 0x1_0000_0000

  function Unused(ids: set<Id>, used: set<Id>, lastResort: Id): set<Id> {
    set id | id in ids && id != lastResort && id !in used
  }

  /** The counting loop over the Kyber map */
  method CountUnused(ids: set<Id>, used: set<Id>, lastResort: Id) returns (kem: nat)
    ensures kem == |Unused(ids, used, lastResort)|
  {
    kem := 0;
    var left := ids;
    while left != {}
      invariant kem + |Unused(left, used, lastResort)| == |Unused(ids, used, lastResort)|
      decreases |left|
    {
      var id :| id in left;
      if id == lastResort || id in used {
        assert Unused(left - {id}, used, lastResort) == Unused(left, used, lastResort);
      } else {
        assert Unused(left, used, lastResort) == Unused(left - {id}, used, lastResort) + {id};
        kem := kem + 1;
      }
      left := left - {id};
    }
    assert Unused({}, used, lastResort) == {};
  }
}
