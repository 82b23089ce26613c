/** What several of the modules share. */
module Common {

  datatype Option<+T> = None | Some(value: T)

  function Power2(k: nat): (p: nat)
    ensures p > 0
  {
    if k == 0 then 1 else 2 * Power2(k - 1)
  }
}
