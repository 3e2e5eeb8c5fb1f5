/** Erasing a number of blocks around bad ones, on the JZ4740 and on the JZ4760. */
module Erasing {
  import opened Options
  import opened Flash
  import opened NandSpec
  import opened PageNumbers

  /** nand_erase_4740 from block `b`, where `e` is the loop's moving bound. A bad block moves
      the bound by the plane count; a block that fails to erase is marked and does not. */
  function EraseFrom(g: Geometry, c: Chip, b: nat, e: nat, force: bool): (r: Option<(Chip, nat)>)
    requires g.Valid()
    ensures r.Some? ==> |r.value.0.blocks| == |c.blocks| && r.value.1 >= b
    decreases |c.blocks| - b
  {
    if b >= e then Some((c, b))
    else if b >= |c.blocks| then None
    else if !force && IsBad(g, c.blocks[b]) then EraseFrom(g, c, b + 1, e + g.plane, force)
    else EraseFrom(g, EraseOne(g, c, b), b + 1, e, force)
  }

  /** nand_erase_4740 asked for `n` blocks from block `b`. */
  function EraseBlocks(g: Geometry, c: Chip, b: nat, n: nat, force: bool): (r: Option<(Chip, nat)>)
    requires g.Valid()
    ensures r.Some? ==> |r.value.0.blocks| == |c.blocks| && r.value.1 >= b
  {
    EraseFrom(g, c, b, b + n, force)
  }

  /** nand_erase_4760 from block `b` with `todo` rounds of its loop left. Bad blocks and
      blocks that fail to erase both extend the loop by the plane count. */
  function EraseFrom60(g: Geometry, c: Chip, b: nat, todo: nat, force: bool): (r: Option<(Chip, nat)>)
    requires g.Valid()
    ensures r.Some? ==> |r.value.0.blocks| == |c.blocks| && r.value.1 >= b
    decreases |c.blocks| - b
  {
    if todo == 0 then Some((c, b))
    else if b >= |c.blocks| then None
    else if !force && IsBad(g, c.blocks[b]) then EraseFrom60(g, c, b + 1, todo - 1 + g.plane, force)
    else EraseFrom60(g, EraseOne(g, c, b), b + 1, if NextStatus(c).Fail? then todo - 1 + g.plane else todo - 1, force)
  }

  /** Good blocks in [a, b). */
  function CountGood(g: Geometry, bl: seq<Block>, a: nat, b: nat): (n: nat)
    requires b <= |bl|
    ensures a <= b ==> n <= b - a
    decreases b - a
  {
    if a >= b then 0 else (if IsBad(g, bl[a]) then 0 else 1) + CountGood(g, bl, a + 1, b)
  }

  lemma {:induction false} CountFrame(g: Geometry, bl: seq<Block>, bl': seq<Block>, a: nat, b: nat)
    requires b <= |bl| && |bl'| == |bl| && forall i | a <= i < b :: bl'[i] == bl[i]
    ensures CountGood(g, bl', a, b) == CountGood(g, bl, a, b)
    decreases b - a
  {
    if a < b {
      CountFrame(g, bl, bl', a + 1, b);
    }
  }

  lemma {:induction false} CountGrows(g: Geometry, bl: seq<Block>, a: nat, b: nat, c: nat)
    requires a <= b <= c <= |bl|
    ensures CountGood(g, bl, a, b) <= CountGood(g, bl, a, c)
    decreases b - a
  {
    if a < b {
      CountGrows(g, bl, a + 1, b, c);
    }
  }

  lemma EraseOneBlock(g: Geometry, c: Chip, b: nat)
    requires g.Valid() && b < |c.blocks|
    ensures var c1 := EraseOne(g, c, b);
            && (forall i | 0 <= i < |c.blocks| && i != b :: c1.blocks[i] == c.blocks[i])
            && (if NextStatus(c).Fail? then IsBad(g, c1.blocks[b]) && Fails(c1.status) + 1 == Fails(c.status)
                else c1.blocks[b] == ErasedBlock(g) && Fails(c1.status) == Fails(c.status))
  {
    MarkBadVerdicts(g, EraseBlock(g, c, b), b);
  }

  /** What became of the blocks in [b, e): bad ones are as they were, good ones are erased
      or have been marked bad, and everything else on the chip is untouched. */
  ghost predicate ErasedRange(g: Geometry, c: Chip, c': Chip, b: nat, e: nat) {
    && b <= e <= |c.blocks| && |c'.blocks| == |c.blocks|
    && (forall i | 0 <= i < |c.blocks| && !(b <= i < e) :: c'.blocks[i] == c.blocks[i])
    && (forall i | b <= i < e ::
          if IsBad(g, c.blocks[i]) then c'.blocks[i] == c.blocks[i]
          else c'.blocks[i] == ErasedBlock(g) || IsBad(g, c'.blocks[i]))
  }

  lemma ErasedRangeStep(g: Geometry, c: Chip, c1: Chip, c': Chip, b: nat, e: nat)
    requires b < |c.blocks| && |c1.blocks| == |c.blocks|
    requires forall i | 0 <= i < |c.blocks| && i != b :: c1.blocks[i] == c.blocks[i]
    requires if IsBad(g, c.blocks[b]) then c1.blocks[b] == c.blocks[b]
             else c1.blocks[b] == ErasedBlock(g) || IsBad(g, c1.blocks[b])
    requires ErasedRange(g, c1, c', b + 1, e)
    ensures ErasedRange(g, c, c', b, e)
  {
    assert c'.blocks[b] == c1.blocks[b];
  }

  /** The outcome of a JZ4740 erase that was to stop at block `stop`. */
  ghost predicate Tried(g: Geometry, c: Chip, b: nat, stop: nat, r: Option<(Chip, nat)>)
    requires b <= stop && b <= |c.blocks|
  {
    && (r.Some? <==> CountGood(g, c.blocks, b, |c.blocks|) >= stop - b)
    && (r.Some? ==>
          var (c', e) := r.value;
          && ErasedRange(g, c, c', b, e)
          && CountGood(g, c.blocks, b, e) == stop - b
          && CountGood(g, c'.blocks, b, e) + Fails(c.status) == stop - b + Fails(c'.status)
          && Fails(c'.status) <= Fails(c.status))
  }

  lemma TriedAfterBad(g: Geometry, c: Chip, b: nat, stop: nat, r: Option<(Chip, nat)>)
    requires b < |c.blocks| && b < stop && IsBad(g, c.blocks[b])
    requires Tried(g, c, b + 1, stop + 1, r)
    ensures Tried(g, c, b, stop, r)
  {
    if r.Some? {
      ErasedRangeStep(g, c, c, r.value.0, b, r.value.1);
    }
  }

  lemma TriedAfterErase(g: Geometry, c: Chip, b: nat, stop: nat, r: Option<(Chip, nat)>)
    requires g.Valid() && b < |c.blocks| && b < stop && !IsBad(g, c.blocks[b])
    requires Tried(g, EraseOne(g, c, b), b + 1, stop, r)
    ensures Tried(g, c, b, stop, r)
  {
    var c1 := EraseOne(g, c, b);
    ErasedBlockIsGood(g);
    EraseOneBlock(g, c, b);
    CountFrame(g, c.blocks, c1.blocks, b + 1, |c.blocks|);
    if r.Some? {
      ErasedRangeStep(g, c, c1, r.value.0, b, r.value.1);
      CountFrame(g, c.blocks, c1.blocks, b + 1, r.value.1);
    }
  }

  /** JZ4740, one plane, force off: the call stops exactly when `stop - b` blocks that were
      good have been tried, so the blocks passed beyond that number are the bad ones; each
      one tried that did not fail is erased. The call stays on the chip exactly when there
      are that many good blocks. */
  lemma {:induction false} EraseTries(g: Geometry, c: Chip, b: nat, stop: nat)
    requires g.Valid() && g.plane == 1 && b <= |c.blocks| && b <= stop
    ensures Tried(g, c, b, stop, EraseFrom(g, c, b, stop, false))
    decreases |c.blocks| - b
  {
    if b < stop && b < |c.blocks| {
      var r := EraseFrom(g, c, b, stop, false);
      if IsBad(g, c.blocks[b]) {
        EraseTries(g, c, b + 1, stop + 1);
        TriedAfterBad(g, c, b, stop, r);
      } else {
        EraseTries(g, EraseOne(g, c, b), b + 1, stop);
        TriedAfterErase(g, c, b, stop, r);
      }
    }
  }

  /** JZ4760, one plane, force off: under any bad marks and any erase failures a call that
      stays on the chip leaves exactly `n` erased good blocks in the range it passed, every
      other block there bad, and nothing outside it changed. */
  lemma {:induction false} Erase60Delivers(g: Geometry, c: Chip, b: nat, n: nat)
    requires g.Valid() && g.plane == 1 && b <= |c.blocks|
    ensures var r := EraseFrom60(g, c, b, n, false);
            && (CountGood(g, c.blocks, b, |c.blocks|) >= n + Fails(c.status) ==> r.Some?)
            && (r.Some? ==>
                  var (c', e) := r.value;
                  && ErasedRange(g, c, c', b, e)
                  && CountGood(g, c'.blocks, b, e) == n
                  && CountGood(g, c.blocks, b, e) + Fails(c'.status) == n + Fails(c.status))
    decreases |c.blocks| - b
  {
    if n > 0 && b < |c.blocks| {
      if IsBad(g, c.blocks[b]) {
        Erase60Delivers(g, c, b + 1, n);
        var r := EraseFrom60(g, c, b, n, false);
        if r.Some? {
          ErasedRangeStep(g, c, c, r.value.0, b, r.value.1);
        }
      } else {
        var c1 := EraseOne(g, c, b);
        ErasedBlockIsGood(g);
        EraseOneBlock(g, c, b);
        CountFrame(g, c.blocks, c1.blocks, b + 1, |c.blocks|);
        Erase60Delivers(g, c1, b + 1, if NextStatus(c).Fail? then n else n - 1);
        var r := EraseFrom60(g, c, b, n, false);
        if r.Some? {
          ErasedRangeStep(g, c, c1, r.value.0, b, r.value.1);
          CountFrame(g, c.blocks, c1.blocks, b + 1, r.value.1);
        }
      }
    }
  }

  // ----- any number of planes, forced or not

  /** How many blocks of [a, x) the erase passes over. */
  function Passed(g: Geometry, bl: seq<Block>, a: nat, x: nat, force: bool): nat
    requires x <= |bl|
    decreases x - a
  {
    if a >= x then 0 else (if !force && IsBad(g, bl[a]) then 1 else 0) + Passed(g, bl, a + 1, x, force)
  }

  lemma {:induction false} PassedFrame(g: Geometry, bl: seq<Block>, bl': seq<Block>, a: nat, x: nat, force: bool)
    requires x <= |bl| && |bl'| == |bl| && forall i | a <= i < x :: bl'[i] == bl[i]
    ensures Passed(g, bl', a, x, force) == Passed(g, bl, a, x, force)
    decreases x - a
  {
    if a < x {
      PassedFrame(g, bl, bl', a + 1, x, force);
    }
  }

  /** The bound of the JZ4740's loop when it has come from block `b` to block `x`: one plane
      count more for every block passed over. */
  function Bound(g: Geometry, bl: seq<Block>, b: nat, e: nat, x: nat, force: bool): nat
    requires x <= |bl|
  {
    e + At(Passed(g, bl, b, x, force), 0, g.plane)
  }

  /** Block `x` is the first from `b` on that is not below the bound it has then. */
  ghost predicate StopsAt(g: Geometry, bl: seq<Block>, b: nat, e: nat, force: bool, x: nat) {
    && b <= x <= |bl| && Bound(g, bl, b, e, x, force) <= x
    && forall y | b <= y < x :: y < Bound(g, bl, b, e, y, force)
  }

  ghost predicate NeverStops(g: Geometry, bl: seq<Block>, b: nat, e: nat, force: bool) {
    forall y | b <= y <= |bl| :: y < Bound(g, bl, b, e, y, force)
  }

  lemma BoundStep(g: Geometry, bl: seq<Block>, bl': seq<Block>, b: nat, b1: nat, e: nat, e1: nat, force: bool, x: nat)
    requires b < x <= |bl| && |bl'| == |bl| && b1 == b + 1 && forall i | b1 <= i < |bl| :: bl'[i] == bl[i]
    requires e1 == if !force && IsBad(g, bl[b]) then e + g.plane else e
    ensures Bound(g, bl', b1, e1, x, force) == Bound(g, bl, b, e, x, force)
  {
    PassedFrame(g, bl, bl', b1, x, force);
  }

  lemma BoundsStep(g: Geometry, bl: seq<Block>, bl': seq<Block>, b: nat, b1: nat, e: nat, e1: nat, force: bool)
    requires b < e && b < |bl| && |bl'| == |bl| && b1 == b + 1 && forall i | b1 <= i < |bl| :: bl'[i] == bl[i]
    requires e1 == if !force && IsBad(g, bl[b]) then e + g.plane else e
    ensures forall x :: StopsAt(g, bl', b1, e1, force, x) ==> StopsAt(g, bl, b, e, force, x)
    ensures NeverStops(g, bl', b1, e1, force) ==> NeverStops(g, bl, b, e, force)
  {
    forall x | b < x <= |bl| ensures Bound(g, bl', b1, e1, x, force) == Bound(g, bl, b, e, x, force) {
      BoundStep(g, bl, bl', b, b1, e, e1, force, x);
    }
    assert Bound(g, bl, b, e, b, force) == e;
  }

  /** Where the JZ4740's erase stops, for any plane count, forced or not; and it leaves the chip
      exactly when it reaches no such block. */
  lemma {:induction false} EraseStops(g: Geometry, c: Chip, b: nat, e: nat, force: bool)
    requires g.Valid() && b <= |c.blocks|
    ensures var r := EraseFrom(g, c, b, e, force);
            if r.Some? then StopsAt(g, c.blocks, b, e, force, r.value.1) else NeverStops(g, c.blocks, b, e, force)
    decreases |c.blocks| - b
  {
    if b >= e {
      assert Bound(g, c.blocks, b, e, b, force) == e;
    } else if b == |c.blocks| {
      assert Bound(g, c.blocks, b, e, b, force) == e;
    } else if !force && IsBad(g, c.blocks[b]) {
      EraseStops(g, c, b + 1, e + g.plane, force);
      BoundsStep(g, c.blocks, c.blocks, b, b + 1, e, e + g.plane, force);
    } else {
      var c1 := EraseOne(g, c, b);
      EraseOneBlock(g, c, b);
      EraseStops(g, c1, b + 1, e, force);
      BoundsStep(g, c.blocks, c1.blocks, b, b + 1, e, e, force);
    }
  }

  /** What became of the blocks: nothing outside [b, e), nothing to one that is passed over, and
      every other one erased or marked bad. */
  ghost predicate Left(g: Geometry, c: Chip, c': Chip, b: nat, e: nat, force: bool) {
    && b <= e <= |c.blocks| == |c'.blocks|
    && (forall i | 0 <= i < |c.blocks| && !(b <= i < e && (force || !IsBad(g, c.blocks[i]))) :: c'.blocks[i] == c.blocks[i])
    && (forall i | b <= i < e && (force || !IsBad(g, c.blocks[i])) :: c'.blocks[i] == ErasedBlock(g) || IsBad(g, c'.blocks[i]))
  }

  lemma LeftStep(g: Geometry, c: Chip, c1: Chip, c': Chip, b: nat, b1: nat, e: nat, force: bool)
    requires b < |c.blocks| && b1 == b + 1 && |c1.blocks| == |c.blocks|
    requires forall i | 0 <= i < |c.blocks| && i != b :: c1.blocks[i] == c.blocks[i]
    requires if !force && IsBad(g, c.blocks[b]) then c1.blocks[b] == c.blocks[b]
             else c1.blocks[b] == ErasedBlock(g) || IsBad(g, c1.blocks[b])
    requires Left(g, c1, c', b1, e, force)
    ensures Left(g, c, c', b, e, force)
  {
    assert c'.blocks[b] == c1.blocks[b];
  }

  lemma {:induction false} EraseLeaves(g: Geometry, c: Chip, b: nat, e: nat, force: bool)
    requires g.Valid() && b <= |c.blocks|
    ensures var r := EraseFrom(g, c, b, e, force); r.Some? ==> Left(g, c, r.value.0, b, r.value.1, force)
    decreases |c.blocks| - b
  {
    var r := EraseFrom(g, c, b, e, force);
    if b < e && b < |c.blocks| {
      if !force && IsBad(g, c.blocks[b]) {
        EraseLeaves(g, c, b + 1, e + g.plane, force);
        if r.Some? {
          LeftStep(g, c, c, r.value.0, b, b + 1, r.value.1, force);
        }
      } else {
        var c1 := EraseOne(g, c, b);
        EraseOneBlock(g, c, b);
        EraseLeaves(g, c1, b + 1, e, force);
        if r.Some? {
          LeftStep(g, c, c1, r.value.0, b, b + 1, r.value.1, force);
        }
      }
    }
  }

  /** The JZ4760's erase, for any plane count, forced or not: one block for every round asked for,
      and a plane count more for every block passed over and for every failure. */
  ghost predicate Rounds(g: Geometry, c: Chip, b: nat, n: nat, force: bool, r: Option<(Chip, nat)>) {
    r.Some? ==>
      && Left(g, c, r.value.0, b, r.value.1, force)
      && Fails(r.value.0.status) <= Fails(c.status)
      && r.value.1 == b + n + At(Passed(g, c.blocks, b, r.value.1, force) + Fails(c.status) - Fails(r.value.0.status), 0, g.plane)
  }

  lemma {:induction false} RoundsStep(g: Geometry, c: Chip, c1: Chip, b: nat, b1: nat, n: nat, n1: nat, extra: nat, force: bool, r: Option<(Chip, nat)>)
    requires b < |c.blocks| && b1 == b + 1 && n > 0 && |c1.blocks| == |c.blocks|
    requires forall i | 0 <= i < |c.blocks| && i != b :: c1.blocks[i] == c.blocks[i]
    requires if !force && IsBad(g, c.blocks[b]) then c1 == c && extra == 1
             else (c1.blocks[b] == ErasedBlock(g) || IsBad(g, c1.blocks[b])) && Fails(c1.status) + extra == Fails(c.status)
    requires extra <= 1 && n1 == n - 1 + (if extra == 1 then g.plane else 0) && Rounds(g, c1, b1, n1, force, r)
    ensures Rounds(g, c, b, n, force, r)
  {
    if r.Some? {
      LeftStep(g, c, c1, r.value.0, b, b1, r.value.1, force);
      PassedFrame(g, c.blocks, c1.blocks, b1, r.value.1, force);
    }
  }

  lemma {:induction false} Erase60Rounds(g: Geometry, c: Chip, b: nat, n: nat, force: bool)
    requires g.Valid() && b <= |c.blocks|
    ensures Rounds(g, c, b, n, force, EraseFrom60(g, c, b, n, force))
    decreases |c.blocks| - b
  {
    if n > 0 && b < |c.blocks| {
      var r := EraseFrom60(g, c, b, n, force);
      if !force && IsBad(g, c.blocks[b]) {
        Erase60Rounds(g, c, b + 1, n - 1 + g.plane, force);
        RoundsStep(g, c, c, b, b + 1, n, n - 1 + g.plane, 1, force, r);
      } else {
        var c1 := EraseOne(g, c, b);
        var failed := NextStatus(c).Fail?;
        var n1 := if failed then n - 1 + g.plane else n - 1;
        EraseOneBlock(g, c, b);
        Erase60Rounds(g, c1, b + 1, n1, force);
        RoundsStep(g, c, c1, b, b + 1, n, n1, if failed then 1 else 0, force, r);
      }
    }
  }
}
