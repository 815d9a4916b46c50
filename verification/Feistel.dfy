/** Feistel networks over two 32-bit halves, with an arbitrary round function. */
module Feistel {

  datatype Pair = Pair(l: bv32, r: bv32)

  type Rounds = (nat, bv32) -> bv32

  function Swapped(p: Pair): Pair { Pair(p.r, p.l) }

  function Xor(x: bv32, y: bv32): bv32 { x ^ y }

  function Round(g: Rounds, i: nat, p: Pair): Pair {
    Pair(p.r, Xor(p.l, g(i, p.r)))
  }

  /** Rounds 0 to n - 1. */
  function Forward(g: Rounds, n: nat, p: Pair): Pair {
    if n == 0 then p else Round(g, n - 1, Forward(g, n - 1, p))
  }

  /** Rounds n - 1 down to 0. */
  function Backward(g: Rounds, n: nat, p: Pair): Pair {
    if n == 0 then p else Backward(g, n - 1, Round(g, n - 1, p))
  }

  /** The halves change sides on output. */
  function Encrypt(g: Rounds, n: nat, p: Pair): Pair { Swapped(Forward(g, n, p)) }

  function Decrypt(g: Rounds, n: nat, p: Pair): Pair { Swapped(Backward(g, n, p)) }

  lemma XorTwice(x: bv32, y: bv32)
    ensures Xor(Xor(x, y), y) == x
  {
  }

  /** A round undoes itself through swapped halves. */
  lemma RoundUndoes(g: Rounds, i: nat, p: Pair)
    ensures Round(g, i, Swapped(Round(g, i, p))) == Swapped(p)
  {
    XorTwice(p.l, g(i, p.r));
  }

  lemma {:induction false} BackwardUndoes(g: Rounds, n: nat, p: Pair)
    ensures Backward(g, n, Swapped(Forward(g, n, p))) == Swapped(p)
  {
    if n > 0 {
      RoundUndoes(g, n - 1, Forward(g, n - 1, p));
      BackwardUndoes(g, n - 1, p);
    }
  }

  lemma {:induction false} ForwardUndoes(g: Rounds, n: nat, p: Pair)
    ensures Forward(g, n, Swapped(Backward(g, n, p))) == Swapped(p)
  {
    if n > 0 {
      var q := Round(g, n - 1, p);
      ForwardUndoes(g, n - 1, q);
      RoundUndoes(g, n - 1, p);
    }
  }

  /** Whatever the round function and the number of rounds, decryption and encryption are inverses. */
  lemma Inversion(g: Rounds, n: nat, p: Pair)
    ensures Decrypt(g, n, Encrypt(g, n, p)) == p
    ensures Encrypt(g, n, Decrypt(g, n, p)) == p
  {
    BackwardUndoes(g, n, p);
    ForwardUndoes(g, n, p);
  }

  lemma SameRound(g: Rounds, h: Rounds, i: nat, p: Pair)
    requires g(i, p.r) == h(i, p.r)
    ensures Round(g, i, p) == Round(h, i, p)
  {
  }

  /** Only the first n round functions matter. */
  lemma {:induction false} SameRounds(g: Rounds, h: Rounds, n: nat, p: Pair)
    requires forall i, d :: 0 <= i < n ==> g(i, d) == h(i, d)
    ensures Forward(g, n, p) == Forward(h, n, p)
  {
    if n > 0 {
      hide Round;
      SameRounds(g, h, n - 1, p);
      SameRound(g, h, n - 1, Forward(g, n - 1, p));
    }
  }

  lemma {:induction false} SameRoundsBack(g: Rounds, h: Rounds, n: nat, p: Pair)
    requires forall i, d :: 0 <= i < n ==> g(i, d) == h(i, d)
    ensures Backward(g, n, p) == Backward(h, n, p)
  {
    if n > 0 {
      hide Round;
      SameRound(g, h, n - 1, p);
      SameRoundsBack(g, h, n - 1, Round(g, n - 1, p));
    }
  }
}
