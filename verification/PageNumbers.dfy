/** Page numbers: block * ppb + page, taken apart by division. The three functions are
    recursive so that proofs about the walk never meet non-linear arithmetic; the lemmas at
    the end say that they are the source's `*`, `/` and `%`. */
module PageNumbers {

  /** The block of page `p`: p / ppb. */
  function Blk(p: nat, ppb: nat): nat
    requires ppb > 0
    decreases p
  {
    if p < ppb then 0 else 1 + Blk(p - ppb, ppb)
  }

  /** The place of page `p` inside its block: p % ppb. */
  function Idx(p: nat, ppb: nat): (k: nat)
    requires ppb > 0
    ensures k < ppb
    decreases p
  {
    if p < ppb then p else Idx(p - ppb, ppb)
  }

  /** Page `k` of block `b`: b * ppb + k. */
  function At(b: nat, k: nat, ppb: nat): nat {
    if b == 0 then k else ppb + At(b - 1, k, ppb)
  }

  lemma {:induction false} Split(b: nat, k: nat, ppb: nat)
    requires k < ppb
    ensures Blk(At(b, k, ppb), ppb) == b && Idx(At(b, k, ppb), ppb) == k
  {
    if b > 0 {
      Split(b - 1, k, ppb);
    }
  }

  lemma {:induction false} Recompose(p: nat, ppb: nat)
    requires ppb > 0
    ensures At(Blk(p, ppb), Idx(p, ppb), ppb) == p
    decreases p
  {
    if p >= ppb {
      Recompose(p - ppb, ppb);
    }
  }

  lemma NextBlock(p: nat, ppb: nat)
    requires ppb > 0
    ensures Blk(p + ppb, ppb) == Blk(p, ppb) + 1 && Idx(p + ppb, ppb) == Idx(p, ppb)
  {
  }

  lemma {:induction false} AtStep(b: nat, k: nat, ppb: nat)
    ensures At(b, k, ppb) + ppb == At(b + 1, k, ppb)
    ensures At(b, k, ppb) + 1 == At(b, k + 1, ppb)
    ensures At(b, ppb, ppb) == At(b + 1, 0, ppb)
  {
    if b > 0 {
      AtStep(b - 1, k, ppb);
    }
  }

  lemma {:induction false} AtIsLinear(b: nat, k: nat, ppb: nat)
    ensures At(b, k, ppb) == At(b, 0, ppb) + k
    ensures At(b, k, ppb) == b * ppb + k
  {
    if b > 0 {
      AtIsLinear(b - 1, k, ppb);
      assert b * ppb == (b - 1) * ppb + ppb;
    }
  }

  lemma PageOf(b: nat, k: nat, ppb: nat)
    requires k < ppb
    ensures Blk(b * ppb + k, ppb) == b && Idx(b * ppb + k, ppb) == k
  {
    AtIsLinear(b, k, ppb);
    Split(b, k, ppb);
  }

  lemma {:induction false} Quotient(p: nat, ppb: nat)
    requires ppb > 0
    ensures Blk(p, ppb) == p / ppb && Idx(p, ppb) == p % ppb
  {
    Recompose(p, ppb);
    AtIsLinear(Blk(p, ppb), Idx(p, ppb), ppb);
    QuotientUnique(p / ppb, p % ppb, Blk(p, ppb), Idx(p, ppb), ppb);
  }

  /** Whole blocks in front of a page move its block number and leave its place alone. */
  lemma {:induction false} BlkAdd(x: nat, n: nat, d: nat)
    requires d > 0
    ensures Blk(x + At(n, 0, d), d) == n + Blk(x, d) && Idx(x + At(n, 0, d), d) == Idx(x, d)
  {
    if n > 0 {
      BlkAdd(x, n - 1, d);
      NextBlock(x + At(n - 1, 0, d), d);
    }
  }

  lemma {:induction false} AtOrder(a: nat, b: nat, ppb: nat)
    requires ppb > 0
    ensures a < b <==> At(a, 0, ppb) < At(b, 0, ppb)
  {
    if a > 0 && b > 0 {
      AtOrder(a - 1, b - 1, ppb);
    }
  }

  lemma ProductAtLeast(q: int, d: int)
    requires q >= 1 && d > 0
    ensures q * d >= d
  {
  }

  lemma Distribute(q: int, r: int, d: int)
    ensures (q - r) * d == q * d - r * d
  {
  }

  lemma QuotientUnique(q: int, r: int, q': int, r': int, d: int)
    requires 0 <= r < d && 0 <= r' < d
    requires q * d + r == q' * d + r'
    ensures q == q' && r == r'
  {
    Distribute(q, q', d);
    Distribute(q', q, d);
    if q > q' {
      ProductAtLeast(q - q', d);
    } else if q < q' {
      ProductAtLeast(q' - q, d);
    }
  }
}
