/** Hash functions: arbitrary functions on byte strings, of a fixed size where it matters. */
module Hashing {
  import opened Digits

  type Hash = seq<byte> -> seq<byte>

  ghost predicate HashSize(h: Hash, n: nat)
  {
    forall x :: |h(x)| == n
  }

  ghost predicate Collision(h: Hash, a: seq<byte>, b: seq<byte>)
  {
    a != b && h(a) == h(b)
  }
}
