/** Sizes of the on-chip memory of iRCCE. */
module Rcce {

  /** A cache line, the unit of every transfer and of every allocation. */
  const LINE_SIZE: nat := 64
}
