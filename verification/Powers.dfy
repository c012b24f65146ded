/** Powers by recursion on the exponent. */
module Powers {
  function Pow(x: nat, e: nat): (r: nat)
    ensures x > 0 ==> r > 0
  {
    if e == 0 then 1
    else
      assert x > 0 ==> x * Pow(x, e - 1) > 0;
      x * Pow(x, e - 1)
  }
}
