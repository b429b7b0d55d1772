/** Index arithmetic of a circular buffer with d slots. */
module Ring {

  // ptr + k, truncated to the pointer's width.
  function Slot(ptr: nat, k: nat, d: nat): (i: nat)
    requires ptr < d && k <= d
    ensures i < d
  {
    if ptr + k >= d then ptr + k - d else ptr + k
  }

  // How far slot i lies behind ptr, going round.
  function Off(ptr: nat, i: nat, d: nat): (k: nat)
    requires ptr < d && i < d
    ensures k < d && Slot(ptr, k, d) == i
  {
    if i >= ptr then i - ptr else i + d - ptr
  }
}
