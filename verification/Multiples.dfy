/** Products by repeated addition, for the ranks of the step machines. */
module Multiples {

  function Times(k: nat, w: nat): nat {
    if k == 0 then 0 else w + Times(k - 1, w)
  }
}
