/** Numbers below 256 as bytes. */
module Octets {
  lemma NumberBack(n: nat)
    requires n < 256
    ensures n as bv8 as int == n
  {
  }
}
