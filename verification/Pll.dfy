/** The search for the PLL's multiplier and dividers, and what the register word it returns
    means to the clock code. */
module Pll {
  import opened Options

  const WORD: nat := 0x1_0000_0000
  const MHZ: nat := 1_000_000

  /** An output divider 2^i, an input divider k, and half the multiplier. */
  datatype Triple = Triple(i: nat, k: nat, j: nat)

  function Od(i: nat): (r: nat)
    ensures r > 0
  {
    if i == 0 then 1 else if i == 1 then 2 else if i == 2 then 4 else 8
  }

  /** Multiplication of unsigned 32-bit words. */
  function Mul(a: nat, b: nat): nat {
    a * b % WORD
  }

  /** The output divider keeps the oscillator within 500 to 1500 MHz. */
  predicate InWindow(speed: nat, i: nat) {
    500 * MHZ <= Mul(speed, Od(i)) <= 1500 * MHZ
  }

  /** What the loops go through. */
  predicate Admissible(speed: nat, xtal: nat, t: Triple) {
    InRange(speed, xtal, t.i, t.k) && 4 <= t.j <= 127
  }

  predicate InRange(speed: nat, xtal: nat, i: nat, k: nat) {
    i < 4 && 2 <= k <= 15 && InWindow(speed, i) && MHZ <= xtal / k <= 15 * MHZ
  }

  function Difference(a: nat, b: nat): nat {
    if a > b then a - b else b - a
  }

  /** How far the frequency for a triple is from the one that is asked for. */
  function Cost(speed: nat, xtal: nat, t: Triple): nat
    requires t.k > 0
  {
    Difference(Mul(xtal, 2 * t.j) / t.k / Od(t.i), speed)
  }

  function AdmissibleFor(speed: nat, xtal: nat): Triple -> bool {
    (t: Triple) => Admissible(speed, xtal, t)
  }

  function CostFor(speed: nat, xtal: nat): Triple -> nat {
    (t: Triple) => if t.k > 0 then Cost(speed, xtal, t) else 0
  }

  /** The order of the loops. */
  predicate Before(t: Triple, i: nat, k: nat, j: nat) {
    t.i < i || (t.i == i && (t.k < k || (t.k == k && t.j < j)))
  }

  /** Of the admissible triples before (i, k, j), the first of those that cost least. */
  ghost predicate FirstBest(adm: Triple -> bool, cost: Triple -> nat, best: Option<Triple>, i: nat, k: nat, j: nat) {
    match best
    case None => forall t: Triple :: adm(t) ==> !Before(t, i, k, j)
    case Some(b) =>
      && adm(b) && Before(b, i, k, j)
      && forall t: Triple :: adm(t) && Before(t, i, k, j) ==> cost(b) <= cost(t) && (Before(t, b.i, b.k, b.j) ==> cost(b) < cost(t))
  }

  /** Nothing admissible is passed over between two places of the search. */
  lemma {:induction false} Skip(adm: Triple -> bool, cost: Triple -> nat, best: Option<Triple>, i: nat, k: nat, j: nat, i1: nat, k1: nat, j1: nat)
    requires FirstBest(adm, cost, best, i, k, j)
    requires forall t: Triple :: adm(t) ==> (Before(t, i, k, j) <==> Before(t, i1, k1, j1))
    ensures FirstBest(adm, cost, best, i1, k1, j1)
  {
  }

  // ----- division

  lemma {:induction false} DivBounds(a: nat, n: nat)
    requires n > 0
    ensures n * (a / n) <= a < n * (a / n) + n
  {
  }

  lemma {:induction false} MulMono(x: nat, y: nat, n: nat)
    requires x <= y
    ensures x * n <= y * n && n * x <= n * y
  {
  }

  lemma {:induction false} MulCancel(x: nat, y: nat, n: nat)
    requires n * x < n * y
    ensures x < y
  {
    if x >= y {
      MulMono(y, x, n);
    }
  }

  /** Dividing by more gives less. */
  lemma {:induction false} QuotientFalls(a: nat, n: nat, m: nat)
    requires 0 < n <= m
    ensures a / m <= a / n
  {
    var p, q := a / m, a / n;
    DivBounds(a, m);
    DivBounds(a, n);
    MulMono(n, m, p);
    assert n * (q + 1) == n * q + n;
    MulCancel(p, q + 1, n);
  }

  lemma {:induction false} WindowBelowWord(speed: nat, i: nat)
    requires speed < WORD && InWindow(speed, i)
    ensures speed < WORD - 1
  {
  }

  /** The distance the search begins with is more than any it can find. */
  lemma {:induction false} CostBelowWord(speed: nat, xtal: nat, t: Triple, raw: nat)
    requires speed < WORD && InWindow(speed, t.i) && t.k >= 2 && raw == Mul(xtal, 2 * t.j)
    ensures Cost(speed, xtal, t) < WORD - 1
  {
    WindowBelowWord(speed, t.i);
    QuotientFalls(raw, 2, t.k);
    QuotientFalls(raw / t.k, 1, Od(t.i));
  }

  // ----- the register word

  /** The word of the PLL control register. */
  datatype Register = Register(w: bv32)

  function Pack(i: bv32, k: bv32, j: bv32): Register {
    Register((j << 24) | (k << 18) | (i << 16))
  }

  predicate Fields(t: Triple) {
    t.i < 4 && t.k < 16 && t.j < 128
  }

  /** A number of at most seven bits in a word. */
  function Bits(n: nat): bv32
    requires n < 128
  {
    (n as bv7) as bv32
  }

  function PackTriple(t: Triple): Register
    requires Fields(t)
  {
    Pack(Bits(t.i), Bits(t.k), Bits(t.j))
  }

  /** What the search returns: zero if there is nothing to choose. */
  function WordFor(best: Option<Triple>): Register
    requires best.Some? ==> Fields(best.value)
  {
    if best.Some? then PackTriple(best.value) else Register(0)
  }

  // ----- the search

  /** Where the search stands: what it has found is the first best so far, and the distance and
      the word are those of it. */
  ghost predicate Standing(adm: Triple -> bool, cost: Triple -> nat, best: Option<Triple>, i: nat, k: nat, j: nat, distance: nat, plcr: Register) {
    && FirstBest(adm, cost, best, i, k, j)
    && distance == (if best.Some? then cost(best.value) else WORD - 1)
    && (best.Some? ==> Fields(best.value)) && plcr == WordFor(best)
  }

  /** The first best after one more triple. */
  lemma {:induction false} NextTriple(adm: Triple -> bool, cost: Triple -> nat, best: Option<Triple>, t: Triple, distance: nat, plcr: Register, tmp: nat, j1: nat)
    requires Standing(adm, cost, best, t.i, t.k, t.j, distance, plcr) && adm(t) && Fields(t)
    requires tmp == cost(t) < WORD - 1 && j1 == t.j + 1
    ensures if tmp < distance then Standing(adm, cost, Some(t), t.i, t.k, j1, tmp, PackTriple(t))
            else Standing(adm, cost, best, t.i, t.k, j1, distance, plcr)
  {
    assert forall u: Triple :: Before(u, t.i, t.k, j1) <==> Before(u, t.i, t.k, t.j) || u == t;
  }

  lemma {:induction false} OneIsFirst(b: Triple, c: Triple)
    ensures b == c || Before(b, c.i, c.k, c.j) || Before(c, b.i, b.k, b.j)
  {
  }

  /** The first best is one triple. */
  lemma {:induction false} FirstBestUnique(adm: Triple -> bool, cost: Triple -> nat, b: Option<Triple>, c: Option<Triple>, i: nat, k: nat, j: nat)
    requires FirstBest(adm, cost, b, i, k, j) && FirstBest(adm, cost, c, i, k, j)
    ensures b == c
  {
    if b.Some? && c.Some? {
      OneIsFirst(b.value, c.value);
    }
  }

  /** A match cannot be beaten. */
  lemma {:induction false} MatchStands(adm: Triple -> bool, cost: Triple -> nat, best: Option<Triple>, i: nat, k: nat, j: nat, plcr: Register)
    requires Standing(adm, cost, best, i, k, j, 0, plcr) && i < 4
    ensures Standing(adm, cost, best, 4, 0, 0, 0, plcr)
  {
  }

  /** A triple the search looks at is admissible, and this is its cost. */
  lemma {:induction false} Looked(speed: nat, xtal: nat, t: Triple)
    requires speed < WORD && Admissible(speed, xtal, t)
    ensures AdmissibleFor(speed, xtal)(t) && CostFor(speed, xtal)(t) == Cost(speed, xtal, t) < WORD - 1
  {
    CostBelowWord(speed, xtal, t, Mul(xtal, 2 * t.j));
  }

  /** Done after a match, and otherwise on at the given place. */
  ghost predicate Searched(adm: Triple -> bool, cost: Triple -> nat, best: Option<Triple>, matched: bool, i: nat, k: nat, j: nat,
                           distance: nat, plcr: Register) {
    if matched then Standing(adm, cost, best, 4, 0, 0, 0, plcr) else Standing(adm, cost, best, i, k, j, distance, plcr)
  }

  /** The body of the innermost loop. */
  method TryTriple(speed: nat, xtal: nat, i: nat, k: nat, j: nat, distance0: nat, plcr0: Register, ghost best0: Option<Triple>,
                   ghost adm: Triple -> bool, ghost cost: Triple -> nat)
    returns (distance: nat, plcr: Register, matched: bool, ghost best: Option<Triple>)
    requires speed < WORD && InRange(speed, xtal, i, k) && 4 <= j <= 127
    requires adm == AdmissibleFor(speed, xtal) && cost == CostFor(speed, xtal)
    requires Standing(adm, cost, best0, i, k, j, distance0, plcr0)
    ensures Searched(adm, cost, best, matched, i, k, j + 1, distance, plcr)
  {
    distance, plcr, matched, best := distance0, plcr0, false, best0;
    var m := j * 2;
    var raw := Mul(xtal, m) / k;
    var tmp := raw / Od(i);
    tmp := if tmp > speed then tmp - speed else speed - tmp;
    ghost var t := Triple(i, k, j);
    Looked(speed, xtal, t);
    NextTriple(adm, cost, best, t, distance, plcr, tmp, j + 1);
    if tmp < distance {
      distance := tmp;
      plcr := Pack(Bits(i), Bits(k), Bits(j));
      best := Some(t);
      if distance == 0 {
        MatchStands(adm, cost, best, i, k, j + 1, plcr);
        matched := true;
      }
    }
  }

  /** The innermost loop. */
  method SearchMultiplier(speed: nat, xtal: nat, i: nat, k: nat, distance0: nat, plcr0: Register, ghost best0: Option<Triple>,
                          ghost adm: Triple -> bool, ghost cost: Triple -> nat)
    returns (distance: nat, plcr: Register, matched: bool, ghost best: Option<Triple>)
    requires speed < WORD && InRange(speed, xtal, i, k)
    requires adm == AdmissibleFor(speed, xtal) && cost == CostFor(speed, xtal)
    requires Standing(adm, cost, best0, i, k, 4, distance0, plcr0)
    ensures Searched(adm, cost, best, matched, i, k, 128, distance, plcr)
  {
    distance, plcr, matched, best := distance0, plcr0, false, best0;
    var j: nat := 4;
    while j <= 127 && !matched
      invariant 4 <= j <= 128 && Searched(adm, cost, best, matched, i, k, j, distance, plcr)
      decreases 128 - j
    {
      distance, plcr, matched, best := TryTriple(speed, xtal, i, k, j, distance, plcr, best, adm, cost);
      j := j + 1;
    }
  }

  lemma {:induction false} NextDivider(speed: nat, xtal: nat, adm: Triple -> bool, cost: Triple -> nat, best: Option<Triple>, matched: bool,
                                       i: nat, k: nat, k1: nat, distance: nat, plcr: Register)
    requires adm == AdmissibleFor(speed, xtal)
    requires Searched(adm, cost, best, matched, i, k, 128, distance, plcr) && k1 == k + 1
    ensures Searched(adm, cost, best, matched, i, k1, 4, distance, plcr)
  {
    if !matched {
      Skip(adm, cost, best, i, k, 128, i, k1, 4);
    }
  }

  lemma {:induction false} TooFast(speed: nat, xtal: nat, adm: Triple -> bool, cost: Triple -> nat, best: Option<Triple>, i: nat, k: nat, k1: nat,
                                   distance: nat, plcr: Register)
    requires adm == AdmissibleFor(speed, xtal)
    requires Standing(adm, cost, best, i, k, 4, distance, plcr) && k > 0 && xtal / k > 15 * MHZ && k1 == k + 1
    ensures Searched(adm, cost, best, false, i, k1, 4, distance, plcr)
  {
    Skip(adm, cost, best, i, k, 4, i, k1, 4);
  }

  /** The break loses nothing: with larger dividers the frequency only falls. */
  lemma {:induction false} TooSlow(speed: nat, xtal: nat, adm: Triple -> bool, cost: Triple -> nat, best: Option<Triple>, i: nat, k: nat,
                                   distance: nat, plcr: Register)
    requires adm == AdmissibleFor(speed, xtal)
    requires Standing(adm, cost, best, i, k, 4, distance, plcr) && k > 0 && xtal / k < MHZ && k <= 16
    ensures Searched(adm, cost, best, false, i, 16, 4, distance, plcr)
  {
    forall t: Triple | adm(t) ensures Before(t, i, k, 4) <==> Before(t, i, 16, 4) {
      if t.i == i && t.k >= k {
        QuotientFalls(xtal, k, t.k);
      }
    }
    Skip(adm, cost, best, i, k, 4, i, 16, 4);
  }

  lemma {:induction false} NextOutput(speed: nat, xtal: nat, adm: Triple -> bool, cost: Triple -> nat, best: Option<Triple>, i: nat, k: nat, i1: nat,
                                      distance: nat, plcr: Register)
    requires adm == AdmissibleFor(speed, xtal)
    requires Standing(adm, cost, best, i, k, 4, distance, plcr) && (k == 16 || (k == 2 && !InWindow(speed, i))) && i1 == i + 1
    ensures Standing(adm, cost, best, i1, 2, 4, distance, plcr)
  {
    Skip(adm, cost, best, i, k, 4, i1, 2, 4);
  }

  /** The body of the loop over the input divider: `stop` is the break. */
  method TryDivider(speed: nat, xtal: nat, i: nat, k: nat, distance0: nat, plcr0: Register, ghost best0: Option<Triple>,
                    ghost adm: Triple -> bool, ghost cost: Triple -> nat)
    returns (distance: nat, plcr: Register, matched: bool, stop: bool, ghost best: Option<Triple>)
    requires speed < WORD && i < 4 && 2 <= k <= 15 && InWindow(speed, i)
    requires adm == AdmissibleFor(speed, xtal) && cost == CostFor(speed, xtal)
    requires Standing(adm, cost, best0, i, k, 4, distance0, plcr0)
    ensures Searched(adm, cost, best, matched, i, if stop then 16 else k + 1, 4, distance, plcr)
  {
    distance, plcr, matched, stop, best := distance0, plcr0, false, false, best0;
    var n := k;
    if xtal / n < MHZ {
      TooSlow(speed, xtal, adm, cost, best, i, k, distance, plcr);
      stop := true;
    } else if xtal / n > 15 * MHZ {
      TooFast(speed, xtal, adm, cost, best, i, k, k + 1, distance, plcr);
    } else {
      distance, plcr, matched, best := SearchMultiplier(speed, xtal, i, k, distance, plcr, best, adm, cost);
      NextDivider(speed, xtal, adm, cost, best, matched, i, k, k + 1, distance, plcr);
    }
  }

  /** The loop over the input divider. */
  method SearchDivider(speed: nat, xtal: nat, i: nat, distance0: nat, plcr0: Register, ghost best0: Option<Triple>,
                       ghost adm: Triple -> bool, ghost cost: Triple -> nat)
    returns (distance: nat, plcr: Register, matched: bool, ghost best: Option<Triple>)
    requires speed < WORD && i < 4 && InWindow(speed, i)
    requires adm == AdmissibleFor(speed, xtal) && cost == CostFor(speed, xtal)
    requires Standing(adm, cost, best0, i, 2, 4, distance0, plcr0)
    ensures Searched(adm, cost, best, matched, i, 16, 4, distance, plcr)
  {
    distance, plcr, matched, best := distance0, plcr0, false, best0;
    var k: nat, stop := 2, false;
    while k <= 15 && !matched && !stop
      invariant 2 <= k <= 16 && Searched(adm, cost, best, matched, i, if stop then 16 else k, 4, distance, plcr)
      decreases 16 - k, !matched && !stop
    {
      distance, plcr, matched, stop, best := TryDivider(speed, xtal, i, k, distance, plcr, best, adm, cost);
      k := k + 1;
    }
  }

  /** pll_calc_m_n_od, for all 32-bit arguments: the word of the first triple that comes nearest,
      or zero if no triple is admissible. */
  method PllCalc(speed: nat, xtal: nat) returns (plcr: Register, ghost best: Option<Triple>)
    requires speed < WORD
    ensures FirstBest(AdmissibleFor(speed, xtal), CostFor(speed, xtal), best, 4, 0, 0)
    ensures (best.Some? ==> Fields(best.value)) && plcr == WordFor(best)
  {
    ghost var adm, cost := AdmissibleFor(speed, xtal), CostFor(speed, xtal);
    var distance: nat, matched;
    distance, plcr, best := WORD - 1, Register(0), None;
    var i: nat := 0;
    while i < 4
      invariant i <= 4 && Standing(adm, cost, best, i, 2, 4, distance, plcr)
    {
      if Mul(speed, Od(i)) < 500 * MHZ || Mul(speed, Od(i)) > 1500 * MHZ {
        NextOutput(speed, xtal, adm, cost, best, i, 2, i + 1, distance, plcr);
        i := i + 1;
        continue;
      }
      distance, plcr, matched, best := SearchDivider(speed, xtal, i, distance, plcr, best, adm, cost);
      if matched {
        return;
      }
      NextOutput(speed, xtal, adm, cost, best, i, 16, i + 1, distance, plcr);
      i := i + 1;
    }
    Skip(adm, cost, best, 4, 2, 4, 4, 0, 0);
  }

  // ----- what the search is over, in numbers

  /** A setting that pll_calc_m_n_od may choose: the oscillator at 500 to 1500 MHz, on 32-bit
      words, the divided crystal at 1 to 15 MHz, and the dividers and the multiplier in range. */
  predicate Permitted(speed: nat, xtal: nat, i: nat, k: nat, j: nat) {
    && i <= 3 && 2 <= k <= 15 && 4 <= j <= 127
    && 500_000_000 <= speed * [1, 2, 4, 8][i] % 0x1_0000_0000 <= 1_500_000_000
    && 1_000_000 <= xtal / k <= 15_000_000
  }

  /** How far the setting is from the frequency that is asked for. */
  function Off(speed: nat, xtal: nat, i: nat, k: nat, j: nat): nat
    requires i <= 3 && k > 0
  {
    var f := xtal * (2 * j) % 0x1_0000_0000 / k / [1, 2, 4, 8][i];
    if f > speed then f - speed else speed - f
  }

  /** A setting, seen by the search. */
  lemma PermittedIsAdmissible(speed: nat, xtal: nat, i: nat, k: nat, j: nat)
    ensures Permitted(speed, xtal, i, k, j) <==> AdmissibleFor(speed, xtal)(Triple(i, k, j))
    ensures i <= 3 && k > 0 ==> CostFor(speed, xtal)(Triple(i, k, j)) == Off(speed, xtal, i, k, j)
  {
    assert i <= 3 ==> [1, 2, 4, 8][i] == Od(i);
  }

  /** The result is a permitted setting, and of all of them the first, in the order of output
      divider, input divider and multiplier, of those that are least off; there is none only when
      no setting is permitted. */
  lemma {:induction false} BestOfAll(speed: nat, xtal: nat, best: Option<Triple>, i: nat, k: nat, j: nat)
    requires FirstBest(AdmissibleFor(speed, xtal), CostFor(speed, xtal), best, 4, 0, 0)
    ensures best.Some? ==> Permitted(speed, xtal, best.value.i, best.value.k, best.value.j)
    ensures Permitted(speed, xtal, i, k, j) ==> best.Some?
    ensures Permitted(speed, xtal, i, k, j) ==>
              var b := best.value;
              var d := Off(speed, xtal, b.i, b.k, b.j);
              && d <= Off(speed, xtal, i, k, j)
              && (d == Off(speed, xtal, i, k, j) ==> b.i < i || (b.i == i && (b.k < k || (b.k == k && b.j <= j))))
  {
    var t := Triple(i, k, j);
    PermittedIsAdmissible(speed, xtal, i, k, j);
    assert AdmissibleFor(speed, xtal)(t) ==> Before(t, 4, 0, 0);
    if best.Some? {
      var b := best.value;
      assert AdmissibleFor(speed, xtal)(b) && b == Triple(b.i, b.k, b.j);
      PermittedIsAdmissible(speed, xtal, b.i, b.k, b.j);
      OneIsFirst(b, t);
    }
  }

  // ----- the word as the clock code reads it

  function PllM(r: Register): bv32 {
    (r.w & 0x7f00_0000) >> 24
  }

  function PllN(r: Register): bv32 {
    (r.w & 0x003c_0000) >> 18
  }

  function PllOd(r: Register): bv32 {
    (r.w & 0x0003_0000) >> 16
  }

  predicate Enabled(r: Register) {
    r.w & 0x100 != 0 && r.w & 0x200 == 0
  }

  /** What pll_init writes: the word, the stable time and the enable bit. */
  function Written(r: Register): Register {
    Register(r.w | 0x20 | 0x100)
  }

  /** The fields come back: they do not overlap each other or what is set beside them. */
  lemma {:induction false} FieldsBack(i: bv32, k: bv32, j: bv32)
    requires i < 4 && k < 16 && j < 128
    ensures var r := Written(Pack(i, k, j)); PllOd(r) == i && PllN(r) == k && PllM(r) == j && Enabled(r)
    ensures Pack(i, k, j).w == 0x100_0000 * j + 0x4_0000 * k + 0x1_0000 * i
  {
  }

  lemma {:induction false} SevenBits(n: nat)
    requires n < 128
    ensures (n as bv7) as nat == n
  {
    if n < 32 {
      if n < 16 {} else {}
    } else if n < 64 {
      if n < 48 {} else {}
    } else if n < 96 {
      if n < 80 {} else {}
    } else {
      if n < 112 {} else {}
    }
  }

  lemma {:induction false} Widened(b: bv7)
    ensures (b as bv32) as nat == b as nat
  {
  }

  lemma {:induction false} ThroughBits(n: nat)
    requires n < 128
    ensures Bits(n) as nat == n
  {
    SevenBits(n);
    Widened(n as bv7);
  }

  lemma {:induction false} BitsBelow(n: nat)
    requires n < 128
    ensures (n < 4 ==> Bits(n) < 4) && (n < 16 ==> Bits(n) < 16) && Bits(n) < 128
  {
    ThroughBits(n);
  }

  /** The fields of a register word as numbers. */
  function FieldsOf(r: Register): Triple {
    Triple(PllOd(r) as nat, PllN(r) as nat, PllM(r) as nat)
  }

  lemma {:induction false} TripleBack(t: Triple)
    requires Fields(t)
    ensures FieldsOf(Written(PackTriple(t))) == t && Enabled(Written(PackTriple(t)))
  {
    ThroughBits(t.i);
    ThroughBits(t.k);
    ThroughBits(t.j);
    BitsBelow(t.i);
    BitsBelow(t.k);
    BitsBelow(t.j);
    FieldsBack(Bits(t.i), Bits(t.k), Bits(t.j));
  }

  lemma {:induction false} ProductPositive(n: nat, m: nat)
    requires n > 0 && m > 0
    ensures n * m > 0
  {
    MulMono(1, m, n);
  }

  lemma {:induction false} QuotientIs(a: nat, n: nat, q: nat)
    requires n > 0 && n * q <= a < n * q + n
    ensures a / n == q
  {
    var r := a / n;
    DivBounds(a, n);
    assert n * (r + 1) == n * r + n && n * (q + 1) == n * q + n;
    MulCancel(q, r + 1, n);
    MulCancel(r, q + 1, n);
  }

  lemma {:induction false} Regroup(n: nat, m: nat, p: nat)
    ensures n * (m * p) == (n * m) * p && n * (m * p + m) == (n * m) * p + n * m
  {
  }

  /** Dividing twice is dividing by the product. */
  lemma {:induction false} FloorOfFloor(a: nat, n: nat, m: nat, nm: nat)
    requires n > 0 && m > 0 && nm == n * m
    ensures nm > 0 && a / n / m == a / nm
  {
    var q := a / n;
    var p := q / m;
    ProductPositive(n, m);
    DivBounds(a, n);
    DivBounds(q, m);
    var mp := m * p;
    MulMono(mp, q, n);
    MulMono(q + 1, mp + m, n);
    assert n * (q + 1) == n * q + n;
    Regroup(n, m, p);
    QuotientIs(a, nm, p);
  }

  function ByProduct(a: nat, n: nat, m: nat): nat
    requires n > 0 && m > 0
  {
    ProductPositive(n, m);
    a / (n * m)
  }

  /** The frequency that a triple stands for, with a single division. */
  function Out(xtal: nat, t: Triple): nat
    requires t.k > 0
  {
    ByProduct(Mul(xtal, 2 * t.j), t.k, Od(t.i))
  }

  /** __cpm_get_pllout. */
  function PllOut(r: Register, xtal: nat): nat
    requires FieldsOf(r).k > 0
  {
    if Enabled(r) then Out(xtal, FieldsOf(r)) else xtal
  }

  /** The clock code, dividing once, computes the frequency whose distance the search, dividing
      twice, has made least. */
  lemma {:induction false} ClockAgrees(speed: nat, xtal: nat, t: Triple, r: Register)
    requires Fields(t) && t.k > 0 && r == Written(PackTriple(t))
    ensures FieldsOf(r) == t && Enabled(r) && Cost(speed, xtal, t) == Difference(PllOut(r, xtal), speed)
  {
    TripleBack(t);
    CostIsOut(speed, xtal, t);
  }

  lemma {:induction false} CostIsOut(speed: nat, xtal: nat, t: Triple)
    requires t.k > 0
    ensures Cost(speed, xtal, t) == Difference(Out(xtal, t), speed)
  {
    var raw, od := Mul(xtal, 2 * t.j), Od(t.i);
    FloorOfFloor(raw, t.k, od, t.k * od);
  }

  // ----- how near the search comes

  const MAX_XTAL: nat := 16_909_320

  /** The largest crystal frequency whose products stay within a word. */
  lemma {:induction false} NoWrapExactly(xtal: nat)
    ensures (forall j: nat | 4 <= j <= 127 :: Mul(xtal, 2 * j) == xtal * (2 * j)) <==> xtal <= MAX_XTAL
  {
    if xtal <= MAX_XTAL {
      forall j: nat | 4 <= j <= 127 ensures Mul(xtal, 2 * j) == xtal * (2 * j) {
        NoWrap(xtal, j);
      }
    } else {
      assert Mul(xtal, 2 * 127) != xtal * (2 * 127);
    }
  }

  lemma {:induction false} NoWrap(xtal: nat, j: nat)
    requires xtal <= MAX_XTAL && j <= 127
    ensures Mul(xtal, 2 * j) == xtal * (2 * j)
  {
    MulMono(2 * j, 254, xtal);
  }

  /** Within those bounds the search is about the frequencies themselves. */
  lemma {:induction false} CostMeans(speed: nat, xtal: nat, t: Triple)
    requires xtal <= MAX_XTAL && 8 * speed < WORD && t.k > 0 && t.i < 4 && t.j <= 127
    ensures Cost(speed, xtal, t) == Difference(xtal * (2 * t.j) / t.k / Od(t.i), speed)
    ensures InWindow(speed, t.i) <==> 500 * MHZ <= speed * Od(t.i) <= 1500 * MHZ
  {
    NoWrap(xtal, t.j);
  }

  /** The multiplier nearest to a frequency of the oscillator, at an input divider of two. */
  lemma {:induction false} Nearest(xtal: nat, s: nat) returns (j: nat, p: nat)
    requires 12 * MHZ <= xtal <= MAX_XTAL && 500 * MHZ <= s <= 1500 * MHZ
    ensures 4 <= j <= 127 && p == xtal * j && 2 * p <= 2 * s + xtal && 2 * s < 2 * p + xtal
  {
    j := (2 * s + xtal) / (2 * xtal);
    p := xtal * j;
    DivBounds(2 * s + xtal, 2 * xtal);
    assert 2 * xtal * j == 2 * p;
    if j < 4 {
      MulMono(j, 3, xtal);
    }
    if j > 127 {
      MulMono(128, j, xtal);
    }
  }

  /** With that multiplier the frequency is off by no more than half a step. */
  lemma {:induction false} NearestCost(speed: nat, xtal: nat, i: nat, j: nat, p: nat)
    requires 12 * MHZ <= xtal <= MAX_XTAL && i < 4 && 4 <= j <= 127 && p == xtal * j
    requires 2 * p <= 2 * (speed * Od(i)) + xtal && 2 * (speed * Od(i)) < 2 * p + xtal
    ensures Cost(speed, xtal, Triple(i, 2, j)) <= xtal / (2 * Od(i)) + 1
  {
    NoWrap(xtal, j);
    assert xtal * (2 * j) == 2 * p;
    HalfStep(speed, xtal, Od(i), p);
  }

  lemma {:induction false} HalfStep(speed: nat, xtal: nat, od: nat, p: nat)
    requires od == 1 || od == 2 || od == 4 || od == 8
    requires 2 * p <= 2 * (speed * od) + xtal && 2 * (speed * od) < 2 * p + xtal
    ensures Difference(p / od, speed) <= xtal / (2 * od) + 1
  {
  }

  /** For every output divider that keeps the oscillator in its window, the result is within half
      a step of the multiplier, and one, of what has been asked for. */
  lemma {:induction false} ComesNear(speed: nat, xtal: nat, best: Option<Triple>, i: nat)
    requires 12 * MHZ <= xtal <= MAX_XTAL && 8 * speed < WORD && i < 4 && InWindow(speed, i)
    requires FirstBest(AdmissibleFor(speed, xtal), CostFor(speed, xtal), best, 4, 0, 0)
    ensures best.Some? && best.value.k > 0 && Cost(speed, xtal, best.value) <= xtal / (2 * Od(i)) + 1
  {
    var j, p := Nearest(xtal, speed * Od(i));
    var t := Triple(i, 2, j);
    assert AdmissibleFor(speed, xtal)(t) && Before(t, 4, 0, 0);
    NearestCost(speed, xtal, i, j, p);
    assert best.Some? ==> AdmissibleFor(speed, xtal)(best.value);
    assert best.Some? ==> CostFor(speed, xtal)(best.value) <= CostFor(speed, xtal)(t);
  }

  /** There is a result exactly for the frequencies from 62.5 to 1500 MHz. */
  lemma {:induction false} AnswersExactly(speed: nat, xtal: nat, best: Option<Triple>)
    requires 12 * MHZ <= xtal <= MAX_XTAL && 8 * speed < WORD
    requires FirstBest(AdmissibleFor(speed, xtal), CostFor(speed, xtal), best, 4, 0, 0)
    ensures best.Some? <==> 125 * MHZ <= 2 * speed <= 3000 * MHZ
  {
    if best.Some? {
      assert AdmissibleFor(speed, xtal)(best.value);
    } else if 125 * MHZ <= 2 * speed <= 3000 * MHZ {
      var i := if speed >= 500 * MHZ then 0 else if speed >= 250 * MHZ then 1 else if speed >= 125 * MHZ then 2 else 3;
      ComesNear(speed, xtal, best, i);
    }
  }

  /** The search and the clock code together: once the word has been written, the clock code
      reports a frequency as near as that, and no admissible triple comes nearer. */
  lemma {:induction false} ClockIsNear(speed: nat, xtal: nat, best: Option<Triple>, i: nat, r: Register)
    requires 12 * MHZ <= xtal <= MAX_XTAL && 8 * speed < WORD && i < 4 && InWindow(speed, i)
    requires FirstBest(AdmissibleFor(speed, xtal), CostFor(speed, xtal), best, 4, 0, 0)
    requires best.Some? && Fields(best.value) && r == Written(WordFor(best))
    ensures FieldsOf(r) == best.value && best.value.k > 0 && Difference(PllOut(r, xtal), speed) <= xtal / (2 * Od(i)) + 1
    ensures forall t: Triple :: AdmissibleFor(speed, xtal)(t) ==> Difference(PllOut(r, xtal), speed) <= CostFor(speed, xtal)(t)
  {
    ComesNear(speed, xtal, best, i);
    ClockAgrees(speed, xtal, best.value, r);
  }
}
