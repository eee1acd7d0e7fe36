/** Integer helpers shared by the pagination arithmetic. */
module Ints {
  function Min(a: int, b: int): (r: int)
    ensures r <= a && r <= b && (r == a || r == b)
  {
    if a <= b then a else b
  }
}
