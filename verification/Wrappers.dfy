/** Values that may be missing, and steps that may fail. */
module Wrappers {
  datatype Option<+T> = None | Some(value: T)

  /** k steps, each of which may fail. */
  function Chain<T>(step: T -> Option<T>, start: T, k: nat): Option<T> {
    if k == 0 then Some(start)
    else
      var x := Chain(step, start, k - 1);
      if x.None? then None else step(x.value)
  }

  /** A step that fails ends the chain for good. */
  lemma {:induction false} ChainStops<T>(step: T -> Option<T>, start: T, k: nat, m: nat)
    requires k <= m && Chain(step, start, k).None?
    ensures Chain(step, start, m).None?
  {
    if k < m {
      ChainStops(step, start, k, m - 1);
    }
  }
}
