/** What the step relations and the wait cycles share: who takes which step, and who is next on a cycle. */
module Threads {

  datatype Event<Step> = Event(u: nat, step: Step)

  /** The position behind i on a cycle of n. */
  function Succ(n: nat, i: nat): nat {
    if i + 1 < n then i + 1 else 0
  }
}
