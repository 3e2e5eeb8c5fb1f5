/** The target's memory: bytes at 32-bit addresses. */
module Memory {
  import opened RsCode

  const ADDRESSES: nat := 0x1_0000_0000

  type Mem = map<nat, byte>

  /** The address `n` bytes behind `a`, with the wrap-around of 32-bit arithmetic. */
  function Wrap(a: nat, n: nat): (r: nat)
    ensures r < ADDRESSES
  {
    (a + n) % ADDRESSES
  }

  /** memcpy to address `a`. */
  function Store(m: Mem, a: nat, s: seq<byte>): (r: Mem)
    decreases |s|
  {
    if s == [] then m else Store(m[a := s[0]], Wrap(a, 1), s[1..])
  }

  lemma WrapTwice(a: nat, x: nat, y: nat)
    ensures Wrap(Wrap(a, x), y) == Wrap(a, x + y)
  {
  }

  /** Two stores, one behind the other, are one store. */
  lemma {:induction false} StoreOn(m: Mem, a: nat, b: nat, s: seq<byte>, t: seq<byte>)
    requires a < ADDRESSES && b == Wrap(a, |s|)
    ensures Store(Store(m, a, s), b, t) == Store(m, a, s + t)
    decreases |s|
  {
    if s == [] {
      assert s + t == t && b == a;
    } else {
      WrapTwice(a, 1, |s| - 1);
      StoreOn(m[a := s[0]], Wrap(a, 1), b, s[1..], t);
      assert (s + t)[1..] == s[1..] + t;
    }
  }

  /** How far `x` lies behind `a`, going round the end of the address space. */
  function Behind(a: nat, x: nat): (r: nat)
    requires a < ADDRESSES && x < ADDRESSES
    ensures r < ADDRESSES && Wrap(a, r) == x
  {
    if x >= a then x - a else x + ADDRESSES - a
  }

  /** What is at address `x` after a store: the stored byte, or what was there before. */
  lemma {:induction false} StoreAt(m: Mem, a: nat, s: seq<byte>, x: nat)
    requires a < ADDRESSES && x < ADDRESSES && |s| <= ADDRESSES
    ensures var r := Store(m, a, s);
            if Behind(a, x) < |s| then x in r && r[x] == s[Behind(a, x)]
            else (x in r <==> x in m) && (x in m ==> r[x] == m[x])
    decreases |s|
  {
    if s != [] {
      var b, rest := Wrap(a, 1), s[1..];
      StoreAt(m[a := s[0]], b, rest, x);
      if x == a {
        assert Behind(b, x) == ADDRESSES - 1;
      } else {
        assert Behind(a, x) == Behind(b, x) + 1;
      }
    }
  }

  // ----- words in memory

  function LittleEndian(w: nat): (r: seq<byte>)
    ensures |r| == 4
  {
    [(w % 0x100) as byte, (w / 0x100 % 0x100) as byte, (w / 0x10000 % 0x100) as byte, (w / 0x100_0000 % 0x100) as byte]
  }

  /** The number that four bytes are, the least significant one first. */
  function WordValue(b0: byte, b1: byte, b2: byte, b3: byte): nat {
    b0 as nat + 0x100 * (b1 as nat + 0x100 * (b2 as nat + 0x100 * (b3 as nat)))
  }

  lemma ByteBack(b: byte)
    ensures b as nat < 0x100 && (b as nat) as byte == b
  {
  }

  lemma Lowest(q: nat, rest: nat, w: nat)
    requires q < 0x100 && w == q + 0x100 * rest
    ensures w % 0x100 == q && w / 0x100 == rest
  {
  }

  lemma Quarters(q0: nat, q1: nat, q2: nat, q3: nat, w: nat)
    requires q0 < 0x100 && q1 < 0x100 && q2 < 0x100 && q3 < 0x100 && w == q0 + 0x100 * (q1 + 0x100 * (q2 + 0x100 * q3))
    ensures w % 0x100 == q0 && w / 0x100 % 0x100 == q1 && w / 0x10000 % 0x100 == q2 && w / 0x100_0000 % 0x100 == q3
  {
    var w1, w2 := q1 + 0x100 * (q2 + 0x100 * q3), q2 + 0x100 * q3;
    Lowest(q0, w1, w);
    Lowest(q1, w2, w1);
    Lowest(q2, q3, w2);
    assert w / 0x10000 == w1 / 0x100 && w / 0x100_0000 == w2 / 0x100;
  }

  /** A word is stored with its least significant byte first. */
  lemma LittleEndianMeans(b0: byte, b1: byte, b2: byte, b3: byte)
    ensures LittleEndian(WordValue(b0, b1, b2, b3)) == [b0, b1, b2, b3]
  {
    ByteBack(b0);
    ByteBack(b1);
    ByteBack(b2);
    ByteBack(b3);
    Quarters(b0 as nat, b1 as nat, b2 as nat, b3 as nat, WordValue(b0, b1, b2, b3));
  }

  // ----- what lies where

  ghost predicate HoldsAt(m: Mem, a: nat, i: nat, b: byte) {
    Wrap(a, i) in m && m[Wrap(a, i)] == b
  }

  /** A sequence of bytes lies in memory at `a`. */
  ghost predicate Holds(m: Mem, a: nat, s: seq<byte>) {
    forall i | 0 <= i < |s| :: HoldsAt(m, a, i, s[i])
  }

  lemma BehindWrap(a: nat, i: nat)
    requires a < ADDRESSES && i < ADDRESSES
    ensures Behind(a, Wrap(a, i)) == i
  {
  }

  lemma {:induction false} StoredHolds(m: Mem, a: nat, s: seq<byte>)
    requires a < ADDRESSES && |s| <= ADDRESSES
    ensures Holds(Store(m, a, s), a, s)
  {
    forall i | 0 <= i < |s| ensures HoldsAt(Store(m, a, s), a, i, s[i]) {
      StoreAt(m, a, s, Wrap(a, i));
      BehindWrap(a, i);
    }
  }

  lemma {:induction false} HoldsPart(m: Mem, a: nat, s: seq<byte>, lo: nat, hi: nat, b: nat)
    requires Holds(m, a, s) && lo <= hi <= |s| && b == Wrap(a, lo)
    ensures Holds(m, b, s[lo..hi])
  {
    forall i | 0 <= i < hi - lo ensures HoldsAt(m, b, i, s[lo..hi][i]) {
      WrapTwice(a, lo, i);
      assert HoldsAt(m, a, lo + i, s[lo + i]);
    }
  }

  /** The word at `a`. */
  ghost predicate WordAt(m: Mem, a: nat, w: nat) {
    Holds(m, a, LittleEndian(w))
  }
}
