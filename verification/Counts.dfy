/** Counts by number: what has been counted for a number that is not in the map is zero. */
module Counts {

  function N(m: map<nat, nat>, id: nat): nat {
    if id in m then m[id] else 0
  }

  function Plus(m: map<nat, nat>, id: nat, k: nat): map<nat, nat> {
    m[id := N(m, id) + k]
  }

  /** One less, if there is any. */
  function Less(m: map<nat, nat>, id: nat): map<nat, nat> {
    if N(m, id) > 0 then m[id := N(m, id) - 1] else m
  }
}
