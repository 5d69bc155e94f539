/** The two result shapes used across the model, and names nobody uses yet. */
module Wrappers {
  /** An absent value. */
  datatype Option<+T> = None | Some(value: T)

  /** A thrown error. */
  datatype Result<+T, +E> = Ok(value: T) | Err(error: E)

  lemma {:induction false} UnusedNat(used: set<nat>) returns (n: nat)
    ensures n !in used
    ensures forall u | u in used :: u < n
    decreases |used|
  {
    if used == {} {
      n := 0;
    } else {
      var u :| u in used;
      n := UnusedNat(used - {u});
      assert forall x | x in used :: x == u || x in used - {u};
      n := if u < n then n else u + 1;
    }
  }

  lemma {:induction false} UnusedString(used: set<string>) returns (t: string)
    ensures t !in used
    ensures forall u | u in used :: |u| < |t|
    decreases |used|
  {
    if used == {} {
      t := "";
    } else {
      var u :| u in used;
      t := UnusedString(used - {u});
      assert forall x | x in used :: x == u || x in used - {u};
      t := if |u| < |t| then t else u + "x";
    }
  }
}
