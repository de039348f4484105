/** Counting by truth values. */
module Indicatrices {
  function Un(b: bool): nat { if b then 1 else 0 }
}
