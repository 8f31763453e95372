/** The outcome of a three-way comparison. */
module Orderings {

  datatype Ordering = Less | Equal | Greater {
    function Flip(): Ordering {
      match this
      case Less => Greater
      case Equal => Equal
      case Greater => Less
    }
  }

  function CompareInt(a: int, b: int): (o: Ordering)
    ensures (o == Less <==> a < b) && (o == Equal <==> a == b) && (o == Greater <==> a > b)
  {
    if a < b then Less else if a == b then Equal else Greater
  }
}
