/** Results of successive write() calls: the n-th accepts as many bytes as the n-th entry says, or fails. */
module Scripts {
  /** How many bytes the calls take until the first one that takes nothing. */
  function Offered(script: seq<int>): (r: nat) {
    if script == [] || script[0] <= 0 then 0 else script[0] + Offered(script[1..])
  }

  function Min(a: nat, b: nat): (r: nat) {
    if a < b then a else b
  }

  /** Calls that never fail take at least one byte each. */
  lemma {:induction false} OfferedGrows(script: seq<int>)
    requires forall i :: 0 <= i < |script| ==> script[i] > 0
    ensures Offered(script) >= |script|
  {
    if script != [] {
      OfferedGrows(script[1..]);
    }
  }
}
