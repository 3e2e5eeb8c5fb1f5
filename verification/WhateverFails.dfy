/** A file on a chip whose every program and erase may fail: exactly which contents of the blocks
    behind the erased range make it safe whatever fails. */
module WhateverFails {
  import opened Options
  import opened RsCode
  import opened Flash
  import opened PageFormat
  import opened PageNumbers
  import opened NandSpec
  import opened Programming
  import opened Flashing
  import opened Erasing
  import opened ImageFile
  import opened FlashFile
  import opened Landing
  import opened LostFiles

  // ----- the good blocks of a chip

  function GoodFrom(g: Geometry, bl: seq<Block>, b: nat): (r: seq<nat>)
    ensures forall i | 0 <= i < |r| :: b <= r[i] < |bl|
    decreases |bl| - b
  {
    if b >= |bl| then [] else (if IsBad(g, bl[b]) then [] else [b]) + GoodFrom(g, bl, b + 1)
  }

  lemma {:induction false} GoodFrame(g: Geometry, bl: seq<Block>, bl1: seq<Block>, b: nat)
    requires |bl1| == |bl| && forall i | b <= i < |bl| :: bl1[i] == bl[i]
    ensures GoodFrom(g, bl1, b) == GoodFrom(g, bl, b)
    decreases |bl| - b
  {
    if b < |bl| {
      GoodFrame(g, bl, bl1, b + 1);
    }
  }

  lemma {:induction false} GoodSkips(g: Geometry, bl: seq<Block>, a: nat, b: nat)
    requires a <= b && AllBad(Bads(g, bl), a, b)
    ensures GoodFrom(g, bl, a) == GoodFrom(g, bl, b)
    decreases b - a
  {
    if a < b {
      assert Bads(g, bl)[a];
      GoodSkips(g, bl, a + 1, b);
    }
  }

  lemma {:induction false} GoodIn(g: Geometry, bl: seq<Block>, b: nat, i: nat)
    requires i < |GoodFrom(g, bl, b)|
    ensures !IsBad(g, bl[GoodFrom(g, bl, b)[i]])
    decreases |bl| - b
  {
    if IsBad(g, bl[b]) {
      GoodIn(g, bl, b + 1, i);
    } else if i > 0 {
      GoodIn(g, bl, b + 1, i - 1);
    }
  }

  /** The first of the good blocks, and the others. */
  lemma {:induction false} FirstOfGood(g: Geometry, bl: seq<Block>, b: nat)
    requires GoodFrom(g, bl, b) != []
    ensures var f := GoodFrom(g, bl, b)[0];
            AllBad(Bads(g, bl), b, f) && !IsBad(g, bl[f]) && GoodFrom(g, bl, b) == [f] + GoodFrom(g, bl, f + 1)
    decreases |bl| - b
  {
    if IsBad(g, bl[b]) {
      FirstOfGood(g, bl, b + 1);
    }
  }

  /** The good blocks from `a` on end with those from `b` on. */
  lemma {:induction false} GoodSplits(g: Geometry, bl: seq<Block>, a: nat, b: nat) returns (before: seq<nat>)
    requires a <= b
    ensures GoodFrom(g, bl, a) == before + GoodFrom(g, bl, b) && forall i | 0 <= i < |before| :: before[i] < b
    decreases b - a
  {
    if a == b {
      before := [];
    } else if a >= |bl| {
      before := [];
    } else {
      var rest := GoodSplits(g, bl, a + 1, b);
      before := (if IsBad(g, bl[a]) then [] else [a]) + rest;
    }
  }

  lemma {:induction false} GoodStep(g: Geometry, bl: seq<Block>, b: nat, b1: nat)
    requires b < |bl| && b1 == b + 1
    ensures |GoodFrom(g, bl, b)| == (if IsBad(g, bl[b]) then 0 else 1) + |GoodFrom(g, bl, b1)|
  {
  }

  /** Block `f` is the `j`-th good block from `b` on. */
  ghost predicate IsIndex(g: Geometry, bl: seq<Block>, b: nat, f: nat, j: nat) {
    var all := GoodFrom(g, bl, b);
    j < |all| && all[j] == f && j + 1 + |GoodFrom(g, bl, f + 1)| == |all|
  }

  lemma {:induction false} IndexHere(g: Geometry, bl: seq<Block>, b: nat)
    requires b < |bl| && !IsBad(g, bl[b])
    ensures IsIndex(g, bl, b, b, 0)
  {
  }

  lemma {:induction false} NextIndex(g: Geometry, bl: seq<Block>, b: nat, b1: nat, f: nat, j: nat, k: nat)
    requires b < |bl| && b1 == b + 1 && IsIndex(g, bl, b1, f, j) && k == if IsBad(g, bl[b]) then j else j + 1
    ensures IsIndex(g, bl, b, f, k)
  {
    GoodStep(g, bl, b, b1);
  }

  lemma {:induction false} IndexOfGood(g: Geometry, bl: seq<Block>, b: nat, f: nat) returns (j: nat)
    requires b <= f < |bl| && !IsBad(g, bl[f])
    ensures IsIndex(g, bl, b, f, j)
    decreases f - b
  {
    if b == f {
      j := 0;
      IndexHere(g, bl, b);
    } else {
      var k := IndexOfGood(g, bl, b + 1, f);
      j := if IsBad(g, bl[b]) then k else k + 1;
      NextIndex(g, bl, b, b + 1, f, k, j);
    }
  }

  // ----- driving a transfer

  /** Some page of the request is programmed, so that its transfer can fail. */
  ghost predicate SomePage(imgs: seq<Image>) {
    exists k :: 0 <= k < |imgs| && imgs[k].Some?
  }

  lemma {:induction false} SomeBehind(imgs: seq<Image>)
    requires imgs != []
    ensures SomePage(imgs) <==> imgs[0].Some? || SomePage(imgs[1..])
  {
    assert forall i | 0 < i < |imgs| :: imgs[i] == imgs[1..][i - 1];
    if imgs[0].None? && SomePage(imgs) {
      var i :| 0 <= i < |imgs| && imgs[i].Some?;
      assert imgs[1..][i - 1].Some?;
    }
  }

  /** `m` programs fail, one pass after another, and every erase behind them passes. */
  function FailPass(junk: nat -> Page, m: nat): seq<Status> {
    if m == 0 then [] else [Fail(junk), Pass] + FailPass(junk, m - 1)
  }

  /** A pass over pages that are all left erased uses no status. */
  lemma {:induction false} NonePasses(g: Geometry, c: Chip, imgs: seq<Image>, b: nat, k: nat)
    requires g.Valid() && b < |c.blocks| && k + |imgs| <= g.ppb && (k == 0 ==> !IsBad(g, c.blocks[b])) && !SomePage(imgs)
    ensures Attempt(g, c, imgs, At(b, k, g.ppb)) == Done(c, At(b, k, g.ppb) + |imgs|)
    decreases |imgs|
  {
    if imgs != [] {
      Split(b, k, g.ppb);
      AtStep(b, k, g.ppb);
      assert imgs[0].None?;
      SomeBehind(imgs);
      NonePasses(g, c, imgs[1..], b, k + 1);
    }
  }

  /** A pass whose first program fails stays in its block. */
  ghost predicate FailsIn(c: Chip, b: nat, ppb: nat, r: Outcome) {
    && ppb > 0 && r.Failed? && |r.c.blocks| == |c.blocks| && Blk(r.page, ppb) == b && c.status != [] && r.c.status == c.status[1..]
    && (forall i | 0 <= i < |c.blocks| && i != b :: r.c.blocks[i] == c.blocks[i])
  }

  lemma {:induction false} PassFails(g: Geometry, c: Chip, imgs: seq<Image>, b: nat, k: nat)
    requires g.Valid() && b < |c.blocks| && k + |imgs| <= g.ppb && (k == 0 ==> !IsBad(g, c.blocks[b])) && SomePage(imgs)
    requires c.status != [] && c.status[0].Fail?
    ensures FailsIn(c, b, g.ppb, Attempt(g, c, imgs, At(b, k, g.ppb)))
    decreases |imgs|
  {
    Split(b, k, g.ppb);
    AtStep(b, k, g.ppb);
    SomeBehind(imgs);
    if imgs[0].None? {
      PassFails(g, c, imgs[1..], b, k + 1);
    }
  }

  /** A request has been programmed into block `f`; its statuses are used up. */
  ghost predicate DrivenTo(g: Geometry, c: Chip, imgs: seq<Image>, s: nat, f: nat, st: seq<Status>, r: Option<(Chip, nat)>) {
    match r
    case None => false
    case Some((c1, end)) => end == At(f, 0, g.ppb) + |imgs| && c1.status == st && LandsIn(g, c, imgs, s, c1, end, f)
  }

  /** Without failures it is the first good block. */
  lemma {:induction false} DriveFirst(g: Geometry, c: Chip, imgs: seq<Image>, s: nat, s1: nat)
    requires g.Valid() && Shaped(g, c) && 0 < |imgs| <= g.ppb && GoodFrom(g, c.blocks, s) != [] && s1 == s + 1
    requires c.status == [] || !SomePage(imgs)
    ensures DrivenTo(g, c, imgs, s, GoodFrom(g, c.blocks, s)[0], c.status, NandSpec.Program(g, c, imgs, At(s, 0, g.ppb)))
  {
    var f := GoodFrom(g, c.blocks, s)[0];
    FirstOfGood(g, c.blocks, s);
    AttemptSkips(g, c, imgs, s, f);
    AttemptInBlock(g, c, imgs, f, 0);
    if c.status != [] {
      NonePasses(g, c, imgs, f, 0);
    }
    ProgramRestarts(g, c, imgs, s, s1);
    var pass := Attempt(g, c, imgs, At(s, 0, g.ppb));
    assert pass.Done?;
    StillBad(g, c.blocks, pass.c.blocks, s, f);
  }

  lemma {:induction false} OthersGood(g: Geometry, bl: seq<Block>, bl3: seq<Block>, s: nat, s1: nat, f: nat, f1: nat, all: seq<nat>)
    requires all == GoodFrom(g, bl, s) && all != [] && f == all[0] && s1 == s + 1 && f1 == f + 1 && |bl3| == |bl|
    requires IsBad(g, bl3[f]) && forall i | 0 <= i < |bl| && i != f :: bl3[i] == bl[i]
    ensures GoodFrom(g, bl3, s1) == all[1..]
  {
    FirstOfGood(g, bl, s);
    forall i | s1 <= i < f1 ensures Bads(g, bl3)[i] {
      if i < f {
        assert Bads(g, bl)[i];
      }
    }
    GoodSkips(g, bl3, s1, f1);
    GoodFrame(g, bl, bl3, f1);
  }

  /** After a failure and a clean-up that passes, the good blocks left are the others. */
  lemma {:induction false} OneFewerGood(g: Geometry, c: Chip, s: nat, s1: nat, f: nat, c1: Chip, c3: Chip, rest: seq<Status>)
    requires g.Valid() && Shaped(g, c) && s1 == s + 1 && GoodFrom(g, c.blocks, s) != [] && f == GoodFrom(g, c.blocks, s)[0]
    requires |c1.blocks| == |c.blocks| && forall i | 0 <= i < |c.blocks| && i != f :: c1.blocks[i] == c.blocks[i]
    requires c1.status == [Pass] + rest && c3 == CleanedUp(g, c1, f)
    ensures c3.status == rest && Shaped(g, c3) && |c3.blocks| == |c.blocks|
    ensures forall i | 0 <= i < |c.blocks| && i != f :: c3.blocks[i] == c.blocks[i]
    ensures IsBad(g, c3.blocks[f]) && GoodFrom(g, c3.blocks, s1) == GoodFrom(g, c.blocks, s)[1..]
  {
    CleanUp(g, c1, f);
    EraseOneStatus(g, c1.blocks, f, Pass, rest);
    OthersGood(g, c.blocks, c3.blocks, s, s1, f, f + 1, GoodFrom(g, c.blocks, s));
  }

  lemma {:induction false} FailedPass(g: Geometry, c: Chip, imgs: seq<Image>, s: nat, f: nat) returns (c1: Chip, page: nat)
    requires g.Valid() && 0 < |imgs| <= g.ppb && SomePage(imgs) && c.status != [] && c.status[0].Fail?
    requires GoodFrom(g, c.blocks, s) != [] && f == GoodFrom(g, c.blocks, s)[0]
    ensures Attempt(g, c, imgs, At(s, 0, g.ppb)) == Failed(c1, page) && FailsIn(c, f, g.ppb, Failed(c1, page))
  {
    FirstOfGood(g, c.blocks, s);
    AttemptSkips(g, c, imgs, s, f);
    PassFails(g, c, imgs, f, 0);
    c1, page := Attempt(g, c, imgs, At(s, 0, g.ppb)).c, Attempt(g, c, imgs, At(s, 0, g.ppb)).page;
  }

  lemma {:induction false} RestartsBehind(g: Geometry, c: Chip, imgs: seq<Image>, s: nat, s1: nat, f: nat, c1: Chip, page: nat, c3: Chip)
    requires g.Valid() && s1 == s + 1 && Attempt(g, c, imgs, At(s, 0, g.ppb)) == Failed(c1, page) && Blk(page, g.ppb) == f < |c1.blocks|
    requires c3 == CleanedUp(g, c1, f)
    ensures NandSpec.Program(g, c, imgs, At(s, 0, g.ppb)) == NandSpec.Program(g, c3, imgs, At(s1, 0, g.ppb))
  {
    ProgramRestarts(g, c, imgs, s, s1);
  }

  /** The first pass fails, and the request starts again behind it. */
  lemma {:induction false} FirstFails(g: Geometry, c: Chip, imgs: seq<Image>, s: nat, s1: nat, f: nat, junk: nat -> Page, rest: seq<Status>)
      returns (c3: Chip)
    requires g.Valid() && Shaped(g, c) && 0 < |imgs| <= g.ppb && SomePage(imgs) && s1 == s + 1
    requires c.status == [Fail(junk), Pass] + rest && GoodFrom(g, c.blocks, s) != [] && f == GoodFrom(g, c.blocks, s)[0]
    ensures c3.status == rest && Shaped(g, c3) && |c3.blocks| == |c.blocks|
    ensures forall i | 0 <= i < |c.blocks| && i != f :: c3.blocks[i] == c.blocks[i]
    ensures IsBad(g, c3.blocks[f]) && GoodFrom(g, c3.blocks, s1) == GoodFrom(g, c.blocks, s)[1..]
    ensures NandSpec.Program(g, c, imgs, At(s, 0, g.ppb)) == NandSpec.Program(g, c3, imgs, At(s1, 0, g.ppb))
  {
    var c1, page := FailedPass(g, c, imgs, s, f);
    assert c1.status == [Pass] + rest;
    c3 := CleanedUp(g, c1, f);
    RestartsBehind(g, c, imgs, s, s1, f, c1, page, c3);
    OneFewerGood(g, c, s, s1, f, c1, c3, rest);
  }

  lemma {:induction false} DrivenLater(g: Geometry, c: Chip, imgs: seq<Image>, s: nat, s1: nat, bad: nat, c3: Chip, f: nat, st: seq<Status>,
                                       r: Option<(Chip, nat)>)
    requires Shaped(g, c) && |c3.blocks| == |c.blocks| && s1 == s + 1 && GoodFrom(g, c.blocks, s) != [] && bad == GoodFrom(g, c.blocks, s)[0]
    requires forall i | 0 <= i < |c.blocks| && i != bad :: c3.blocks[i] == c.blocks[i]
    requires IsBad(g, c3.blocks[bad]) && DrivenTo(g, c3, imgs, s1, f, st, r)
    ensures DrivenTo(g, c, imgs, s, f, st, r)
  {
    FirstOfGood(g, c.blocks, s);
    LandsAfterRestart(g, c, imgs, s, s1, bad, c3, r.value.0, r.value.1, f);
  }

  /** With `m` failures it is the good block `m` places further on. */
  lemma {:induction false} DriveOn(g: Geometry, c: Chip, imgs: seq<Image>, s: nat, s1: nat, junk: nat -> Page, m: nat)
    requires g.Valid() && Shaped(g, c) && 0 < |imgs| <= g.ppb && SomePage(imgs) && s1 == s + 1
    requires c.status == FailPass(junk, m) && m < |GoodFrom(g, c.blocks, s)|
    ensures DrivenTo(g, c, imgs, s, GoodFrom(g, c.blocks, s)[m], [], NandSpec.Program(g, c, imgs, At(s, 0, g.ppb)))
    decreases m
  {
    if m == 0 {
      DriveFirst(g, c, imgs, s, s1);
    } else {
      var f := GoodFrom(g, c.blocks, s)[0];
      var c3 := FirstFails(g, c, imgs, s, s1, f, junk, FailPass(junk, m - 1));
      DriveOn(g, c3, imgs, s1, s1 + 1, junk, m - 1);
      DrivenLater(g, c, imgs, s, s1, f, c3, GoodFrom(g, c.blocks, s)[m], [], NandSpec.Program(g, c3, imgs, At(s1, 0, g.ppb)));
    }
  }

  // ----- driving all of them

  lemma {:induction false} CheckIs(rd: Reader, g: Geometry, c: Chip, imgs: seq<Image>, want: seq<Chunk>, p: nat, c0: Chip, end: nat, back: seq<Chunk>)
    requires g.Valid() && imgs != [] && NandSpec.Program(g, c, imgs, p) == Some((c0, end)) && end > 0 && Blk(end - 1, g.ppb) < |c0.blocks|
    requires ReadFrom(rd, g, c0.blocks, p, |imgs|) == Some((back, end))
    ensures Checked(rd, g, c, imgs, want, p)
         == Some((if back != want && Idx(end, g.ppb) == 0 then MarkBad(g, c0, Blk(end - 1, g.ppb)) else c0, end))
  {
  }

  /** The check behind a transfer that has been driven to block `f`. */
  lemma {:induction false} CheckDriven(rd: Reader, g: Geometry, c: Chip, q: Request, s: nat, s1: nat, f: nat, st: seq<Status>)
      returns (c1: Chip, next: nat)
    requires g.Valid() && Shaped(g, c) && GoodBlocksValid(g, c.blocks, s) && SoundRequest(g, q) && s1 == f + 1
    requires DrivenTo(g, c, q.imgs, s, f, st, NandSpec.Program(g, c, q.imgs, At(s, 0, g.ppb)))
    ensures Checked(rd, g, c, q.imgs, q.want, At(s, 0, g.ppb)) == Some((c1, next)) && c1.status == st
    ensures next > 0 && Blk(next - 1, g.ppb) == f && (|q.imgs| == g.ppb ==> next == At(s1, 0, g.ppb))
    ensures Shaped(g, c1) && |c1.blocks| == |c.blocks| && forall i | s1 <= i < |c.blocks| :: c1.blocks[i] == c.blocks[i]
  {
    var p := At(s, 0, g.ppb);
    var c0, end := NandSpec.Program(g, c, q.imgs, p).value.0, NandSpec.Program(g, c, q.imgs, p).value.1;
    var back := LandedReads(rd, g, c0.blocks, s, f, c.blocks[f], q);
    EndsInBlock(f, |q.imgs|, g.ppb, end);
    AtStep(f, 0, g.ppb);
    next := end;
    CheckIs(rd, g, c, q.imgs, q.want, p, c0, end, back);
    c1 := if back != q.want && |q.imgs| == g.ppb then MarkBad(g, c0, f) else c0;
    if back != q.want && |q.imgs| == g.ppb {
      MarkedAfterCheck(g, c, q.imgs, s, c0, end, f, c1);
    }
  }

  ghost predicate Driven(rd: Reader, g: Geometry, c: Chip, reqs: seq<Request>, p: nat, fs: seq<nat>)
    requires g.Valid() && NoneEmpty(reqs)
  {
    ProgramAll(rd, g, c, reqs, p).Some? && Landings(rd, g, c, reqs, p) == fs
  }

  ghost predicate Sendable(g: Geometry, c: Chip, reqs: seq<Request>, s: nat, p: nat) {
    g.Valid() && Shaped(g, c) && GoodBlocksValid(g, c.blocks, s) && SoundRequests(g, reqs) && (reqs != [] ==> p == At(s, 0, g.ppb))
  }

  /** The first transfer has been driven to block `f`. */
  lemma {:induction false} DrivenFirst(rd: Reader, g: Geometry, c: Chip, reqs: seq<Request>, s: nat, p: nat, f: nat, st: seq<Status>)
      returns (c1: Chip, next: nat, s1: nat)
    requires Sendable(g, c, reqs, s, p) && reqs != [] && DrivenTo(g, c, reqs[0].imgs, s, f, st, NandSpec.Program(g, c, reqs[0].imgs, p))
    ensures s1 == f + 1 && Sendable(g, c1, reqs[1..], s1, next) && c1.status == st
    ensures GoodFrom(g, c1.blocks, s1) == GoodFrom(g, c.blocks, s1)
    ensures ProgramAll(rd, g, c, reqs, p) == ProgramAll(rd, g, c1, reqs[1..], next)
    ensures Landings(rd, g, c, reqs, p) == [f] + Landings(rd, g, c1, reqs[1..], next)
  {
    s1 := f + 1;
    c1, next := CheckDriven(rd, g, c, reqs[0], s, s1, f, st);
    GoodFrame(g, c.blocks, c1.blocks, s1);
    ProgramAllStep(rd, g, c, reqs, p, c1, next);
    LandingsStep(rd, g, c, reqs, p, c1, next);
  }

  ghost predicate IsTail(all: seq<nat>, k: nat, rest: seq<nat>) {
    |all| == k + |rest| && forall t | 0 <= t < |rest| :: rest[t] == all[k + t]
  }

  lemma TailOfTail(all: seq<nat>, k: nat, rest: seq<nat>, m: nat, last: seq<nat>, n: nat)
    requires IsTail(all, k, rest) && IsTail(rest, m, last) && n == k + m
    ensures IsTail(all, n, last)
  {
    forall t | 0 <= t < |last| ensures last[t] == all[n + t] {
      assert last[t] == rest[m + t];
    }
  }

  lemma {:induction false} FirstTail(g: Geometry, bl: seq<Block>, b: nat, all: seq<nat>, rest: seq<nat>)
    requires all == GoodFrom(g, bl, b) && all != [] && rest == GoodFrom(g, bl, all[0] + 1)
    ensures IsTail(all, 1, rest)
  {
    FirstOfGood(g, bl, b);
    assert all == [all[0]] + rest;
  }

  lemma {:induction false} GoodBehind(g: Geometry, bl: seq<Block>, b: nat, m: nat, m1: nat, all: seq<nat>, last: seq<nat>)
    requires all == GoodFrom(g, bl, b) && m < |all| && m1 == m + 1 && last == GoodFrom(g, bl, all[m] + 1)
    ensures IsTail(all, m1, last)
    decreases m, 1
  {
    var rest := GoodFrom(g, bl, all[0] + 1);
    FirstTail(g, bl, b, all, rest);
    if m > 0 {
      GoodBehindRest(g, bl, all[0] + 1, m - 1, m, m1, all, rest, last);
    }
  }

  lemma {:induction false} GoodBehindRest(g: Geometry, bl: seq<Block>, b: nat, m0: nat, m: nat, m1: nat, all: seq<nat>, rest: seq<nat>, last: seq<nat>)
    requires rest == GoodFrom(g, bl, b) && IsTail(all, 1, rest) && m == m0 + 1 && m1 == m + 1 < |all| + 1 && last == GoodFrom(g, bl, all[m] + 1)
    ensures IsTail(all, m1, last)
    decreases m0 + 1, 0
  {
    assert rest[m0] == all[1 + m0];
    GoodBehind(g, bl, b, m0, m, rest, last);
    TailOfTail(all, 1, rest, m, last, m1);
  }

  ghost predicate Shifted(fs: seq<nat>, all: seq<nat>, m: nat) {
    m + |fs| <= |all| && forall t | 0 <= t < |fs| :: fs[t] == all[m + t]
  }

  lemma ShiftedCons(all: seq<nat>, m: nat, m1: nat, rest: seq<nat>, more: seq<nat>)
    requires m < |all| && m1 == m + 1 && IsTail(all, m1, rest) && Shifted(more, rest, 0)
    ensures Shifted([all[m]] + more, all, m)
  {
    var fs := [all[m]] + more;
    forall t | 0 <= t < |fs| ensures fs[t] == all[m + t] {
      if t > 0 {
        assert more[t - 1] == rest[0 + (t - 1)];
      }
    }
  }

  /** The first transfer has been driven to the `m`-th good block. */
  lemma {:induction false} DrivenPast(rd: Reader, g: Geometry, c: Chip, reqs: seq<Request>, s: nat, p: nat, st: seq<Status>, all: seq<nat>, m: nat,
                                      m1: nat, f: nat)
      returns (c1: Chip, next: nat, s1: nat, rest: seq<nat>)
    requires Sendable(g, c, reqs, s, p) && reqs != [] && all == GoodFrom(g, c.blocks, s) && m < |all| && m1 == m + 1 && f == all[m]
    requires DrivenTo(g, c, reqs[0].imgs, s, f, st, NandSpec.Program(g, c, reqs[0].imgs, p))
    ensures Sendable(g, c1, reqs[1..], s1, next) && c1.status == st && rest == GoodFrom(g, c1.blocks, s1) && IsTail(all, m1, rest)
    ensures ProgramAll(rd, g, c, reqs, p) == ProgramAll(rd, g, c1, reqs[1..], next)
    ensures Landings(rd, g, c, reqs, p) == [f] + Landings(rd, g, c1, reqs[1..], next)
  {
    rest := GoodPast(g, c.blocks, s, m, m1, all, f);
    c1, next, s1 := DrivenFirst(rd, g, c, reqs, s, p, f, st);
  }

  lemma {:induction false} GoodPast(g: Geometry, bl: seq<Block>, s: nat, m: nat, m1: nat, all: seq<nat>, f: nat) returns (rest: seq<nat>)
    requires all == GoodFrom(g, bl, s) && m < |all| && m1 == m + 1 && f == all[m]
    ensures rest == GoodFrom(g, bl, f + 1) && IsTail(all, m1, rest)
  {
    rest := GoodFrom(g, bl, f + 1);
    GoodBehind(g, bl, s, m, m1, all, rest);
  }

  /** Without failures the transfers land in the first good blocks. */
  lemma {:induction false} DriveAllFirst(rd: Reader, g: Geometry, c: Chip, reqs: seq<Request>, s: nat, p: nat, all: seq<nat>) returns (fs: seq<nat>)
    requires Sendable(g, c, reqs, s, p) && c.status == [] && all == GoodFrom(g, c.blocks, s) && |reqs| <= |all|
    ensures Driven(rd, g, c, reqs, p, fs) && |fs| == |reqs| && Shifted(fs, all, 0)
    decreases |reqs|
  {
    fs := [];
    if reqs != [] {
      DriveFirst(g, c, reqs[0].imgs, s, s + 1);
      var c1, next, s1, rest := DrivenPast(rd, g, c, reqs, s, p, [], all, 0, 1, all[0]);
      var more := DriveAllFirst(rd, g, c1, reqs[1..], s1, next, rest);
      fs := [all[0]] + more;
      ShiftedCons(all, 0, 1, rest, more);
    }
  }

  /** Some page is programmed by one of the transfers up to the `i`-th. */
  ghost predicate SomeUpTo(reqs: seq<Request>, i: nat) {
    exists t :: 0 <= t <= i && t < |reqs| && SomePage(reqs[t].imgs)
  }

  lemma {:induction false} SomeUpToRest(reqs: seq<Request>, i: nat)
    requires reqs != []
    ensures SomeUpTo(reqs, i) <==> SomePage(reqs[0].imgs) || (i > 0 && SomeUpTo(reqs[1..], i - 1))
  {
    if SomeUpTo(reqs, i) {
      var t :| 0 <= t <= i && t < |reqs| && SomePage(reqs[t].imgs);
      if t > 0 {
        assert SomePage(reqs[1..][t - 1].imgs);
      }
    }
    if i > 0 && SomeUpTo(reqs[1..], i - 1) {
      var t :| 0 <= t <= i - 1 && t < |reqs[1..]| && SomePage(reqs[1..][t].imgs);
      assert SomePage(reqs[t + 1].imgs);
    }
  }

  /** The first transfer can fail: all of them land `m` places further on. */
  lemma {:induction false} DriveFailing(rd: Reader, g: Geometry, c: Chip, reqs: seq<Request>, s: nat, p: nat, junk: nat -> Page, m: nat,
                                        all: seq<nat>)
      returns (fs: seq<nat>)
    requires Sendable(g, c, reqs, s, p) && c.status == FailPass(junk, m) && all == GoodFrom(g, c.blocks, s) && |reqs| + m <= |all|
    requires reqs != [] && SomePage(reqs[0].imgs)
    ensures Driven(rd, g, c, reqs, p, fs) && |fs| == |reqs| && Shifted(fs, all, m)
  {
    DriveOn(g, c, reqs[0].imgs, s, s + 1, junk, m);
    fs := DriveBehind(rd, g, c, reqs, s, p, m, all);
  }

  lemma {:induction false} DriveBehind(rd: Reader, g: Geometry, c: Chip, reqs: seq<Request>, s: nat, p: nat, m: nat, all: seq<nat>)
      returns (fs: seq<nat>)
    requires Sendable(g, c, reqs, s, p) && reqs != [] && all == GoodFrom(g, c.blocks, s) && |reqs| + m <= |all|
    requires DrivenTo(g, c, reqs[0].imgs, s, all[m], [], NandSpec.Program(g, c, reqs[0].imgs, p))
    ensures Driven(rd, g, c, reqs, p, fs) && |fs| == |reqs| && Shifted(fs, all, m)
  {
    var c1, next, s1, rest := DrivenPast(rd, g, c, reqs, s, p, [], all, m, m + 1, all[m]);
    var more := DriveAllFirst(rd, g, c1, reqs[1..], s1, next, rest);
    fs := [all[m]] + more;
    ShiftedCons(all, m, m + 1, rest, more);
  }

  /** With `m` failures, as soon as one is possible, transfer `i` lands `m` places further on. */
  lemma {:induction false} DriveAll(rd: Reader, g: Geometry, c: Chip, reqs: seq<Request>, s: nat, p: nat, junk: nat -> Page, m: nat, i: nat,
                                    all: seq<nat>)
      returns (fs: seq<nat>)
    requires Sendable(g, c, reqs, s, p) && c.status == FailPass(junk, m) && all == GoodFrom(g, c.blocks, s) && |reqs| + m <= |all|
    requires i < |reqs| && SomeUpTo(reqs, i)
    ensures Driven(rd, g, c, reqs, p, fs) && |fs| == |reqs| && fs[i] == all[m + i]
    decreases |reqs|, 1
  {
    if SomePage(reqs[0].imgs) {
      fs := DriveFailing(rd, g, c, reqs, s, p, junk, m, all);
    } else {
      SomeUpToRest(reqs, i);
      fs := DriveNone(rd, g, c, reqs, s, p, junk, m, i, i - 1, reqs[1..], all);
    }
  }

  /** The first transfer cannot fail. */
  lemma {:induction false} NoneFirst(rd: Reader, g: Geometry, c: Chip, reqs: seq<Request>, s: nat, p: nat, all: seq<nat>)
      returns (c1: Chip, next: nat, s1: nat, rest: seq<nat>)
    requires Sendable(g, c, reqs, s, p) && reqs != [] && all == GoodFrom(g, c.blocks, s) && all != [] && !SomePage(reqs[0].imgs)
    ensures Sendable(g, c1, reqs[1..], s1, next) && c1.status == c.status && rest == GoodFrom(g, c1.blocks, s1) && IsTail(all, 1, rest)
    ensures ProgramAll(rd, g, c, reqs, p) == ProgramAll(rd, g, c1, reqs[1..], next)
    ensures Landings(rd, g, c, reqs, p) == [all[0]] + Landings(rd, g, c1, reqs[1..], next)
  {
    DriveFirst(g, c, reqs[0].imgs, s, s + 1);
    c1, next, s1, rest := DrivenPast(rd, g, c, reqs, s, p, c.status, all, 0, 1, all[0]);
  }

  lemma TailAt(all: seq<nat>, rest: seq<nat>, more: seq<nat>, fs: seq<nat>, i: nat, i1: nat, m: nat)
    requires all != [] && IsTail(all, 1, rest) && i1 + 1 == i && i1 < |more| && m + i1 < |rest| && more[i1] == rest[m + i1]
    requires fs == [all[0]] + more
    ensures |fs| == |more| + 1 && fs[i] == all[m + i]
  {
    var t := m + i1;
    assert rest[t] == all[1 + t];
  }

  lemma {:induction false} DriveNone(rd: Reader, g: Geometry, c: Chip, reqs: seq<Request>, s: nat, p: nat, junk: nat -> Page, m: nat, i: nat,
                                     i1: nat, fewer: seq<Request>, all: seq<nat>)
      returns (fs: seq<nat>)
    requires Sendable(g, c, reqs, s, p) && c.status == FailPass(junk, m) && all == GoodFrom(g, c.blocks, s) && |reqs| + m <= |all|
    requires reqs != [] && fewer == reqs[1..] && i == i1 + 1 && i1 < |fewer| && SomeUpTo(fewer, i1) && !SomePage(reqs[0].imgs)
    ensures Driven(rd, g, c, reqs, p, fs) && |fs| == |reqs| && fs[i] == all[m + i]
    decreases |reqs|, 0
  {
    var c1, next, s1, rest := NoneFirst(rd, g, c, reqs, s, p, all);
    var more := DriveAll(rd, g, c1, fewer, s1, next, junk, m, i1, rest);
    fs := [all[0]] + more;
    TailAt(all, rest, more, fs, i, i1, m);
  }

  // ----- driving the erase

  /** Where an erase ends, whatever fails. */
  function EraseEnd(g: Geometry, bl: seq<Block>, b: nat, stop: nat, force: bool): (r: Option<nat>)
    ensures r.Some? ==> b <= r.value
    decreases |bl| - b
  {
    if b >= stop then Some(b)
    else if b >= |bl| then None
    else EraseEnd(g, bl, b + 1, if !force && IsBad(g, bl[b]) then stop + g.plane else stop, force)
  }

  lemma {:induction false} EraseEndFrame(g: Geometry, bl: seq<Block>, bl1: seq<Block>, b: nat, stop: nat, force: bool)
    requires |bl1| == |bl| && forall i | b <= i < |bl| :: bl1[i] == bl[i]
    ensures EraseEnd(g, bl1, b, stop, force) == EraseEnd(g, bl, b, stop, force)
    decreases |bl| - b
  {
    if b < stop && b < |bl| {
      EraseEndFrame(g, bl, bl1, b + 1, if !force && IsBad(g, bl[b]) then stop + g.plane else stop, force);
    }
  }

  lemma {:induction false} EraseEnds(g: Geometry, c: Chip, b: nat, stop: nat, force: bool)
    requires g.Valid()
    ensures var r, e := EraseFrom(g, c, b, stop, force), EraseEnd(g, c.blocks, b, stop, force);
            (r.Some? <==> e.Some?) && (r.Some? ==> r.value.1 == e.value)
    decreases |c.blocks| - b
  {
    if b < stop && b < |c.blocks| {
      if !force && IsBad(g, c.blocks[b]) {
        EraseEnds(g, c, b + 1, stop + g.plane, force);
      } else {
        var c1 := EraseOne(g, c, b);
        EraseEndFrame(g, c.blocks, c1.blocks, b + 1, stop, force);
        EraseEnds(g, c1, b + 1, stop, force);
      }
    }
  }

  /** An erase on a chip with the statuses `st` and then `rest` has left `q` good blocks before the
      block where it ended. */
  ghost predicate ErasesTo(g: Geometry, bl: seq<Block>, b: nat, stop: nat, force: bool, e: nat, q: nat, st: seq<Status>, rest: seq<Status>, bl1: seq<Block>)
    requires g.Valid()
  {
    && EraseFrom(g, Chip(bl, st + rest), b, stop, force) == Some((Chip(bl1, rest), e)) && |bl1| == |bl|
    && (forall i | 0 <= i < |bl| && !(b <= i < e) :: bl1[i] == bl[i])
    && |GoodFrom(g, bl1, b)| == q + |GoodFrom(g, bl1, e)|
  }

  lemma {:induction false} EraseOneStatus(g: Geometry, bl: seq<Block>, b: nat, one: Status, more: seq<Status>)
    requires g.Valid() && b < |bl|
    ensures EraseOne(g, Chip(bl, [one] + more), b) == Chip(EraseOne(g, Chip(bl, [one]), b).blocks, more)
  {
    assert ([one] + more)[1..] == more;
  }

  lemma {:induction false} EraseFromStep(g: Geometry, c: Chip, b: nat, b1: nat, stop: nat, force: bool, c1: Chip)
    requires g.Valid() && b < stop && b < |c.blocks| && b1 == b + 1 && (force || !IsBad(g, c.blocks[b])) && c1 == EraseOne(g, c, b)
    ensures EraseFrom(g, c, b, stop, force) == EraseFrom(g, c1, b1, stop, force)
  {
  }

  lemma {:induction false} ErasesOne(g: Geometry, bl: seq<Block>, b: nat, b1: nat, stop: nat, force: bool, e: nat, q: nat, one: Status,
                                     st: seq<Status>, more: seq<Status>, rest: seq<Status>, bl0: seq<Block>, bl1: seq<Block>)
    requires g.Valid() && b < stop && b < |bl| && b1 == b + 1 <= e && (force || !IsBad(g, bl[b])) && more == [one] + st
    requires bl0 == EraseOne(g, Chip(bl, [one]), b).blocks
    requires ErasesTo(g, bl0, b1, stop, force, e, q, st, rest, bl1)
    ensures ErasesTo(g, bl, b, stop, force, e, if one.Pass? then q + 1 else q, more, rest, bl1)
  {
    assert more + rest == [one] + (st + rest);
    EraseOneStatus(g, bl, b, one, st + rest);
    EraseFromStep(g, Chip(bl, more + rest), b, b1, stop, force, Chip(bl0, st + rest));
    EraseOneBlock(g, Chip(bl, [one]), b);
    ErasedBlockIsGood(g);
    GoodStep(g, bl1, b, b1);
  }

  lemma {:induction false} ErasesNothing(g: Geometry, bl: seq<Block>, b: nat, force: bool, rest: seq<Status>)
    requires g.Valid()
    ensures ErasesTo(g, bl, b, b, force, b, 0, [], rest, bl)
  {
    assert [] + rest == rest;
  }

  lemma {:induction false} ErasesPastBad(g: Geometry, bl: seq<Block>, b: nat, b1: nat, stop: nat, stop1: nat, e: nat, q: nat, st: seq<Status>,
                                         rest: seq<Status>, bl1: seq<Block>)
    requires g.Valid() && g.plane == 1 && b < stop && b < |bl| && b1 == b + 1 && stop1 == stop + 1 && IsBad(g, bl[b])
    requires ErasesTo(g, bl, b1, stop1, false, e, q, st, rest, bl1)
    ensures ErasesTo(g, bl, b, stop, false, e, q, st, rest, bl1)
  {
    assert bl1[b] == bl[b];
    assert GoodFrom(g, bl1, b) == GoodFrom(g, bl1, b1);
  }

  /** An erase can leave any number of good blocks, up to the number it was asked for. */
  lemma {:induction false} DriveErase(g: Geometry, bl: seq<Block>, b: nat, stop: nat, force: bool, e: nat, q: nat, junk: nat -> Page, rest: seq<Status>)
      returns (st: seq<Status>, bl1: seq<Block>)
    requires g.Valid() && g.plane == 1 && b <= stop && EraseEnd(g, bl, b, stop, force) == Some(e) && q <= stop - b
    ensures ErasesTo(g, bl, b, stop, force, e, q, st, rest, bl1)
    decreases |bl| - b
  {
    if b == stop {
      st, bl1 := [], bl;
      ErasesNothing(g, bl, b, force, rest);
    } else if !force && IsBad(g, bl[b]) {
      st, bl1 := DriveErase(g, bl, b + 1, stop + 1, force, e, q, junk, rest);
      ErasesPastBad(g, bl, b, b + 1, stop, stop + 1, e, q, st, rest, bl1);
    } else {
      var one, q1 := if q > 0 then Pass else Fail(junk), if q > 0 then q - 1 else 0;
      var bl0 := EraseOne(g, Chip(bl, [one]), b).blocks;
      EraseEndFrame(g, bl, bl0, b + 1, stop, force);
      var more;
      more, bl1 := DriveErase(g, bl0, b + 1, stop, force, e, q1, junk, rest);
      st := [one] + more;
      ErasesOne(g, bl, b, b + 1, stop, force, e, q1, one, more, st, rest, bl0, bl1);
    }
  }

  // ----- what is safe

  /** Transfer `i` can land in the `j`-th of `room` good blocks behind the erased range: on its way
      the erases of blocks in the range can fail, and programs can if there are any to fail. */
  ghost predicate Exposed(reqs: seq<Request>, i: nat, j: nat, room: nat) {
    i < |reqs| && j + |reqs| <= room + i && (j <= i || SomeUpTo(reqs, i))
  }

  /** Transfer `i` is read over the `j`-th of the blocks `good`. */
  ghost predicate ReadsIn(rd: Reader, bl: seq<Block>, good: seq<nat>, reqs: seq<Request>, i: nat, j: nat) {
    i < |reqs| && j < |good| && good[j] < |bl| && ReadsOver(rd, bl[good[j]], reqs[i])
  }

  /** Every transfer is read, page by page, over every block behind the erased range that it can
      land in. */
  ghost predicate SafeOn(rd: Reader, bl: seq<Block>, good: seq<nat>, reqs: seq<Request>) {
    forall i: nat, j: nat :: Exposed(reqs, i, j, |good|) ==> ReadsIn(rd, bl, good, reqs, i, j)
  }

  /** The blocks of an image that has returned are among those, */
  lemma {:induction false} RoomBehind(g: Geometry, bl: seq<Block>, e: nat, fs: seq<nat>, i: nat) returns (j: nat)
    requires i < |fs| && e <= fs[i] && (forall t | i <= t < |fs| :: fs[t] < |bl| && !IsBad(g, bl[fs[t]]))
    requires forall t, u | 0 <= t < u < |fs| :: fs[t] < fs[u]
    ensures j < |GoodFrom(g, bl, e)| && GoodFrom(g, bl, e)[j] == fs[i] && j + |fs| <= |GoodFrom(g, bl, e)| + i
    decreases |fs| - i
  {
    j := IndexOfGood(g, bl, e, fs[i]);
    if i + 1 < |fs| {
      assert fs[i] < fs[i + 1];
      var k := RoomBehind(g, bl, fs[i] + 1, fs, i + 1);
    }
  }

  lemma {:induction false} SomethingGood(rd: Reader, g: Geometry, c: Chip, reqs: seq<Request>, s: nat, p: nat)
    requires Sendable(g, c, reqs, s, p) && reqs != [] && ProgramAll(rd, g, c, reqs, p).Some?
    ensures GoodFrom(g, c.blocks, s) != []
  {
    var sent := ProgramAll(rd, g, c, reqs, p).value;
    var c1, next, f, s1 := SendFirst(rd, g, c, reqs, s, p, sent.0, sent.1);
    var j := IndexOfGood(g, c.blocks, s, f);
  }

  /** and without a page that could fail they are the first ones. */
  lemma {:induction false} NoneLands(rd: Reader, g: Geometry, c: Chip, reqs: seq<Request>, s: nat, p: nat, i: nat, all: seq<nat>, fs: seq<nat>)
    requires Sendable(g, c, reqs, s, p) && ProgramAll(rd, g, c, reqs, p).Some? && all == GoodFrom(g, c.blocks, s)
    requires i < |reqs| && !SomeUpTo(reqs, i) && fs == Landings(rd, g, c, reqs, p)
    ensures i < |all| && i < |fs| && fs[i] == all[i]
    decreases |reqs|, 1
  {
    SomethingGood(rd, g, c, reqs, s, p);
    SomeUpToRest(reqs, i);
    var c1, next, s1, rest := NoneFirst(rd, g, c, reqs, s, p, all);
    if i > 0 {
      NoneLandsBehind(rd, g, c1, reqs[1..], s1, next, i - 1, i, all, rest, fs);
    }
  }

  lemma {:induction false} NoneLandsBehind(rd: Reader, g: Geometry, c: Chip, reqs: seq<Request>, s: nat, p: nat, i1: nat, i: nat, all: seq<nat>,
                                           rest: seq<nat>, fs: seq<nat>)
    requires Sendable(g, c, reqs, s, p) && ProgramAll(rd, g, c, reqs, p).Some? && rest == GoodFrom(g, c.blocks, s)
    requires i1 < |reqs| && i == i1 + 1 && !SomeUpTo(reqs, i1) && all != [] && IsTail(all, 1, rest)
    requires fs == [all[0]] + Landings(rd, g, c, reqs, p)
    ensures i < |all| && i < |fs| && fs[i] == all[i]
    decreases |reqs|, 2
  {
    var more := Landings(rd, g, c, reqs, p);
    NoneLands(rd, g, c, reqs, s, p, i1, rest, more);
    TailAt(all, rest, more, fs, i, i1, 0);
  }

  /** A transfer behind the erased range is exposed there. */
  lemma {:induction false} LandsExposed(rd: Reader, g: Geometry, c: Chip, s: nat, reqs: seq<Request>, force: bool, c2: Chip, e: nat, end: nat,
                                        c1: Chip, fs: seq<nat>, i: nat)
      returns (j: nat)
    requires g.Valid() && Shaped(g, c1) && GoodBlocksValid(g, c1.blocks, s) && SoundRequests(g, reqs) && NoneEmpty(reqs)
    requires Sends(rd, g, c, s, reqs, force, c2, e, end, c1, fs) && ProgramAll(rd, g, c1, reqs, At(s, 0, g.ppb)) == Some((c2, end))
    requires i < |fs| && fs[i] >= e
    ensures Exposed(reqs, i, j, |GoodFrom(g, c.blocks, e)|) && GoodFrom(g, c.blocks, e)[j] == fs[i]
  {
    LandsInGood(rd, g, c1, reqs, s, At(s, 0, g.ppb), c2, end, fs);
    GoodFrame(g, c.blocks, c1.blocks, e);
    j := RoomBehind(g, c1.blocks, e, fs, i);
    if !SomeUpTo(reqs, i) {
      NoneLands(rd, g, c1, reqs, s, At(s, 0, g.ppb), i, GoodFrom(g, c1.blocks, s), fs);
      NotFurther(g, c1.blocks, s, e, i, j, fs[i]);
    }
  }

  lemma {:induction false} NotFurther(g: Geometry, bl: seq<Block>, s: nat, e: nat, i: nat, j: nat, f: nat)
    requires s <= e && i < |GoodFrom(g, bl, s)| && GoodFrom(g, bl, s)[i] == f && j < |GoodFrom(g, bl, e)| && GoodFrom(g, bl, e)[j] == f
    ensures j <= i
  {
    var before := GoodSplits(g, bl, s, e);
    OneIndex(g, bl, s, i, |before| + j);
  }

  /** A good block is counted once. */
  lemma {:induction false} OneIndex(g: Geometry, bl: seq<Block>, b: nat, i: nat, j: nat)
    requires i < |GoodFrom(g, bl, b)| && j < |GoodFrom(g, bl, b)| && GoodFrom(g, bl, b)[i] == GoodFrom(g, bl, b)[j]
    ensures i == j
    decreases |bl| - b
  {
    if IsBad(g, bl[b]) {
      OneIndex(g, bl, b + 1, i, j);
    } else if i > 0 && j > 0 {
      OneIndex(g, bl, b + 1, i - 1, j - 1);
    }
  }

  /** The statuses that drive transfer `i` into the `j`-th good block behind the range. */
  lemma {:induction false} DriveInto(rd: Reader, g: Geometry, bl: seq<Block>, s: nat, reqs: seq<Request>, force: bool, e: nat, junk: nat -> Page,
                                     i: nat, j: nat)
      returns (st: seq<Status>, c1: Chip, fs: seq<nat>)
    requires g.Valid() && g.plane == 1 && Shaped(g, Chip(bl, [])) && GoodBlocksValid(g, bl, s) && SoundRequests(g, reqs) && NoneEmpty(reqs)
    requires EraseEnd(g, bl, s, s + |reqs|, force) == Some(e) && Exposed(reqs, i, j, |GoodFrom(g, bl, e)|)
    ensures EraseBlocks(g, Chip(bl, st), s, |reqs|, force) == Some((c1, e))
    ensures Driven(rd, g, c1, reqs, At(s, 0, g.ppb), fs) && i < |fs| && fs[i] == GoodFrom(g, bl, e)[j]
  {
    var q, m := if j <= i then i - j else 0, if j <= i then 0 else j - i;
    var n, st2 := |reqs|, FailPass(junk, m);
    var st1, bl1 := DriveErase(g, bl, s, s + n, force, e, q, junk, st2);
    st, c1 := st1 + st2, Chip(bl1, st2);
    EraseForFileLeaves(g, Chip(bl, st), s, n, force, c1, e);
    GoodFrame(g, bl, bl1, e);
    BehindRange(g, bl1, s, e, q, j);
    fs := DriveBoth(rd, g, c1, reqs, s, At(s, 0, g.ppb), junk, m, i, q + j, GoodFrom(g, bl1, s));
  }

  lemma {:induction false} BehindRange(g: Geometry, bl: seq<Block>, s: nat, e: nat, q: nat, j: nat)
    requires s <= e && |GoodFrom(g, bl, s)| == q + |GoodFrom(g, bl, e)| && j < |GoodFrom(g, bl, e)|
    ensures GoodFrom(g, bl, s)[q + j] == GoodFrom(g, bl, e)[j]
  {
    var before := GoodSplits(g, bl, s, e);
  }

  lemma {:induction false} DriveBoth(rd: Reader, g: Geometry, c: Chip, reqs: seq<Request>, s: nat, p: nat, junk: nat -> Page, m: nat, i: nat,
                                     k: nat, all: seq<nat>)
      returns (fs: seq<nat>)
    requires Sendable(g, c, reqs, s, p) && c.status == FailPass(junk, m) && all == GoodFrom(g, c.blocks, s) && |reqs| + m <= |all|
    requires i < |reqs| && (m > 0 ==> SomeUpTo(reqs, i)) && k == m + i
    ensures Driven(rd, g, c, reqs, p, fs) && |fs| == |reqs| && fs[i] == all[k]
  {
    if m == 0 {
      fs := DriveAllFirst(rd, g, c, reqs, s, p, all);
      assert fs[i] == all[0 + i];
    } else {
      fs := DriveAll(rd, g, c, reqs, s, p, junk, m, i, all);
    }
  }

  /** What the host cuts a file into is what the theorems above ask for. */
  lemma {:induction false} FileRequests(rs: Engine, rd: Reader, g: Geometry, file: seq<byte>, reqs: seq<Request>)
    requires Sound(rs) && g.Valid() && MarksClear(g) && rd == ReaderOf(rs, g, NoOob) && reqs == Requests(rs, g, file)
    ensures GoodRequests(rd, g, reqs) && SoundRequests(g, reqs) && NoneEmpty(reqs)
  {
    RequestsAreGood(rs, g, file);
    RequestsNotEmpty(rs, g, file);
    forall i | 0 <= i < |reqs| ensures SoundRequest(g, reqs[i]) {
      ErasedReads(rd, g, reqs[i]);
    }
  }

  lemma {:induction false} UnsafeIsLost(rd: Reader, g: Geometry, bl: seq<Block>, s: nat, reqs: seq<Request>, force: bool, e: nat, junk: nat -> Page,
                                        i: nat, j: nat)
      returns (st: seq<Status>)
    requires g.Valid() && g.plane == 1 && Shaped(g, Chip(bl, [])) && GoodBlocksValid(g, bl, s)
    requires GoodRequests(rd, g, reqs) && SoundRequests(g, reqs) && NoneEmpty(reqs)
    requires EraseEnd(g, bl, s, s + |reqs|, force) == Some(e) && Exposed(reqs, i, j, |GoodFrom(g, bl, e)|)
    requires !ReadsOver(rd, bl[GoodFrom(g, bl, e)[j]], reqs[i])
    ensures var r := EraseAndSend(rd, g, Chip(bl, st), At(s, 0, g.ppb), reqs, force);
            r.Some? && !ImageReadBack(rd, g, r.value.0.blocks, At(s, 0, g.ppb), reqs, r.value.2)
  {
    var c1, fs;
    st, c1, fs := DriveInto(rd, g, bl, s, reqs, force, e, junk, i, j);
    Split(s, 0, g.ppb);
    var r := EraseAndSend(rd, g, Chip(bl, st), At(s, 0, g.ppb), reqs, force);
    var c0, fs0 := SentOver(rd, g, Chip(bl, st), s, reqs, force, r.value.0, r.value.1, r.value.2);
    assert c0 == c1 && fs0 == fs && fs[i] >= e;
    assert !OneReads(rd, bl, reqs, fs, i);
  }

  // ----- the file

  /** The file is read back, unless the call has left the chip. */
  ghost predicate Survives(rs: Engine, rd: Reader, g: Geometry, c: Chip, s: nat, start: nat, file: seq<byte>, force: bool)
    requires Sound(rs) && g.Valid()
  {
    match FlashFile.FlashFile(rs, rd, g, c, start, file, force)
    case None => true
    case Some((c2, _, end)) => FileRead(rd, g, c2.blocks, s, file, end)
  }

  /** What a caller can see from the blocks alone. */
  ghost predicate SafeContents(rs: Engine, rd: Reader, g: Geometry, bl: seq<Block>, s: nat, file: seq<byte>, force: bool)
    requires Sound(rs) && g.Valid()
  {
    SafeBehind(rd, g, bl, s, Requests(rs, g, file), force)
  }

  ghost predicate SafeBehind(rd: Reader, g: Geometry, bl: seq<Block>, s: nat, reqs: seq<Request>, force: bool) {
    var end := EraseEnd(g, bl, s, s + |reqs|, force);
    end.Some? ==> SafeOn(rd, bl, GoodFrom(g, bl, end.value), reqs)
  }

  /** The transfers are read back, unless they have left the chip. */
  ghost predicate SendsBack(rd: Reader, g: Geometry, s: nat, reqs: seq<Request>, r: Option<(Chip, nat, nat)>)
    requires g.ppb > 0
  {
    r.Some? ==> ImageReadBack(rd, g, r.value.0.blocks, At(s, 0, g.ppb), reqs, r.value.2)
  }

  lemma {:induction false} EraseBlocksEnds(g: Geometry, c: Chip, s: nat, n: nat, stop: nat, force: bool, c1: Chip, e: nat)
    requires g.Valid() && stop == s + n && EraseBlocks(g, c, s, n, force) == Some((c1, e))
    ensures EraseEnd(g, c.blocks, s, stop, force) == Some(e)
  {
    EraseEnds(g, c, s, stop, force);
  }

  lemma {:induction false} SafeAt(rd: Reader, g: Geometry, bl: seq<Block>, s: nat, stop: nat, reqs: seq<Request>, force: bool, e: nat, good: seq<nat>)
    requires SafeBehind(rd, g, bl, s, reqs, force) && stop == s + |reqs| && EraseEnd(g, bl, s, stop, force) == Some(e)
    requires good == GoodFrom(g, bl, e)
    ensures SafeOn(rd, bl, good, reqs)
  {
  }

  lemma {:induction false} SafeReads(rd: Reader, g: Geometry, c: Chip, s: nat, start: nat, reqs: seq<Request>, force: bool, c2: Chip, e: nat, end: nat)
    requires g.Valid() && Shaped(g, c) && GoodBlocksValid(g, c.blocks, s) && GoodRequests(rd, g, reqs) && SoundRequests(g, reqs) && NoneEmpty(reqs)
    requires start == At(s, 0, g.ppb) && SafeBehind(rd, g, c.blocks, s, reqs, force)
    requires EraseAndSend(rd, g, c, start, reqs, force) == Some((c2, e, end))
    ensures ImageReadBack(rd, g, c2.blocks, start, reqs, end)
  {
    var c1, fs := SentOver(rd, g, c, s, reqs, force, c2, e, end);
    var stop, good := s + |reqs|, GoodFrom(g, c.blocks, e);
    EraseBlocksEnds(g, c, s, |reqs|, stop, force, c1, e);
    SafeAt(rd, g, c.blocks, s, stop, reqs, force, e, good);
    EraseForFileLeaves(g, c, s, |reqs|, force, c1, e);
    SentProgram(rd, g, c, s, start, reqs, force, c1, c2, e, end);
    AllSafe(rd, g, c, s, reqs, force, c2, e, end, c1, fs, good);
  }

  lemma {:induction false} SentProgram(rd: Reader, g: Geometry, c: Chip, s: nat, start: nat, reqs: seq<Request>, force: bool, c1: Chip, c2: Chip,
                                       e: nat, end: nat)
    requires g.Valid() && NoneEmpty(reqs) && start == At(s, 0, g.ppb) && EraseBlocks(g, c, s, |reqs|, force) == Some((c1, e))
    requires EraseAndSend(rd, g, c, start, reqs, force) == Some((c2, e, end))
    ensures ProgramAll(rd, g, c1, reqs, start) == Some((c2, end))
  {
    Split(s, 0, g.ppb);
  }

  lemma {:induction false} AllSafe(rd: Reader, g: Geometry, c: Chip, s: nat, reqs: seq<Request>, force: bool, c2: Chip, e: nat, end: nat, c1: Chip,
                                   fs: seq<nat>, good: seq<nat>)
    requires g.Valid() && Shaped(g, c1) && GoodBlocksValid(g, c1.blocks, s) && SoundRequests(g, reqs) && NoneEmpty(reqs)
    requires Sends(rd, g, c, s, reqs, force, c2, e, end, c1, fs) && ProgramAll(rd, g, c1, reqs, At(s, 0, g.ppb)) == Some((c2, end))
    requires good == GoodFrom(g, c.blocks, e) && SafeOn(rd, c.blocks, good, reqs)
    ensures OutsideReads(rd, c.blocks, e, reqs, fs)
  {
    forall i | 0 <= i < |reqs| && fs[i] >= e ensures OneReads(rd, c.blocks, reqs, fs, i) {
      var j := LandsExposed(rd, g, c, s, reqs, force, c2, e, end, c1, fs, i);
      assert ReadsIn(rd, c.blocks, good, reqs, i, j);
    }
  }

  lemma {:induction false} SafeSends(rd: Reader, g: Geometry, c: Chip, s: nat, start: nat, reqs: seq<Request>, force: bool)
    requires g.Valid() && Shaped(g, c) && GoodBlocksValid(g, c.blocks, s) && GoodRequests(rd, g, reqs) && SoundRequests(g, reqs) && NoneEmpty(reqs)
    requires start == At(s, 0, g.ppb) && SafeBehind(rd, g, c.blocks, s, reqs, force)
    ensures SendsBack(rd, g, s, reqs, EraseAndSend(rd, g, c, start, reqs, force))
  {
    var r := EraseAndSend(rd, g, c, start, reqs, force);
    if r.Some? {
      SafeReads(rd, g, c, s, start, reqs, force, r.value.0, r.value.1, r.value.2);
    }
  }

  lemma {:induction false} UnsafeSends(rd: Reader, g: Geometry, bl: seq<Block>, s: nat, reqs: seq<Request>, force: bool, junk: nat -> Page)
      returns (st: seq<Status>)
    requires g.Valid() && g.plane == 1 && Shaped(g, Chip(bl, [])) && GoodBlocksValid(g, bl, s)
    requires GoodRequests(rd, g, reqs) && SoundRequests(g, reqs) && NoneEmpty(reqs) && !SafeBehind(rd, g, bl, s, reqs, force)
    ensures !SendsBack(rd, g, s, reqs, EraseAndSend(rd, g, Chip(bl, st), At(s, 0, g.ppb), reqs, force))
  {
    var e := EraseEnd(g, bl, s, s + |reqs|, force).value;
    var good := GoodFrom(g, bl, e);
    var i: nat, j: nat :| Exposed(reqs, i, j, |good|) && !ReadsIn(rd, bl, good, reqs, i, j);
    st := UnsafeIsLost(rd, g, bl, s, reqs, force, e, junk, i, j);
  }

  lemma {:induction false} SurvivesIs(rs: Engine, rd: Reader, g: Geometry, c: Chip, s: nat, start: nat, file: seq<byte>, force: bool, reqs: seq<Request>)
    requires Sound(rs) && g.Valid() && rd == ReaderOf(rs, g, NoOob) && start == At(s, 0, g.ppb) && reqs == Requests(rs, g, file)
    ensures NoneEmpty(reqs)
    ensures Survives(rs, rd, g, c, s, start, file, force) <==> SendsBack(rd, g, s, reqs, EraseAndSend(rd, g, c, start, reqs, force))
  {
    RequestsNotEmpty(rs, g, file);
    var r := EraseAndSend(rd, g, c, start, reqs, force);
    if r.Some? {
      FileReadIsReadBack(rs, rd, g, r.value.0.blocks, s, file, reqs, r.value.2);
    }
  }

  /** On a chip with one plane: whatever programs and erases fail, the file is read back if the
      call returns, if and only if every transfer that the failures can drive behind the erased
      range would be read over the blocks it can be driven into. */
  lemma {:induction false} SafeIff(rs: Engine, rd: Reader, g: Geometry, bl: seq<Block>, s: nat, start: nat, file: seq<byte>, force: bool)
    requires Sound(rs) && g.Valid() && g.plane == 1 && Shaped(g, Chip(bl, [])) && GoodBlocksValid(g, bl, s) && MarksClear(g)
    requires rd == ReaderOf(rs, g, NoOob) && start == At(s, 0, g.ppb)
    ensures SafeContents(rs, rd, g, bl, s, file, force)
       <==> forall st: seq<Status> :: Survives(rs, rd, g, Chip(bl, st), s, start, file, force)
  {
    var reqs := Requests(rs, g, file);
    FileRequests(rs, rd, g, file, reqs);
    forall st: seq<Status>
      ensures Survives(rs, rd, g, Chip(bl, st), s, start, file, force) <==> SendsBack(rd, g, s, reqs, EraseAndSend(rd, g, Chip(bl, st), start, reqs, force))
    {
      SurvivesIs(rs, rd, g, Chip(bl, st), s, start, file, force, reqs);
    }
    if SafeBehind(rd, g, bl, s, reqs, force) {
      forall st: seq<Status> ensures Survives(rs, rd, g, Chip(bl, st), s, start, file, force) {
        SafeSends(rd, g, Chip(bl, st), s, start, reqs, force);
      }
    } else {
      var st := UnsafeSends(rd, g, bl, s, reqs, force, k => ErasedPage(g));
      assert !Survives(rs, rd, g, Chip(bl, st), s, start, file, force);
    }
  }

  /** So a file is safe in front of blocks that are erased or bad. */
  lemma {:induction false} SafeOnErasedChip(rs: Engine, rd: Reader, g: Geometry, c: Chip, s: nat, start: nat, file: seq<byte>, force: bool)
    requires Sound(rs) && g.Valid() && Shaped(g, c) && MarksClear(g) && rd == ReaderOf(rs, g, NoOob) && start == At(s, 0, g.ppb)
    requires forall i | s <= i < |c.blocks| && !IsBad(g, c.blocks[i]) :: c.blocks[i] == ErasedBlock(g)
    ensures Survives(rs, rd, g, c, s, start, file, force)
  {
    var reqs := Requests(rs, g, file);
    FileRequests(rs, rd, g, file, reqs);
    ErasedIsSafe(rd, g, c.blocks, s, reqs, force);
    SurvivesIs(rs, rd, g, c, s, start, file, force, reqs);
    SafeSends(rd, g, c, s, start, reqs, force);
  }

  lemma {:induction false} ErasedIsSafe(rd: Reader, g: Geometry, bl: seq<Block>, s: nat, reqs: seq<Request>, force: bool)
    requires g.Valid() && GoodRequests(rd, g, reqs)
    requires forall i | s <= i < |bl| && !IsBad(g, bl[i]) :: bl[i] == ErasedBlock(g)
    ensures SafeBehind(rd, g, bl, s, reqs, force)
  {
    forall i | 0 <= i < |reqs| ensures ReadsOver(rd, ErasedBlock(g), reqs[i]) {
      ErasedReads(rd, g, reqs[i]);
    }
    var end := EraseEnd(g, bl, s, s + |reqs|, force);
    if end.Some? {
      forall j | 0 <= j < |GoodFrom(g, bl, end.value)| ensures bl[GoodFrom(g, bl, end.value)[j]] == ErasedBlock(g) {
        GoodIn(g, bl, end.value, j);
      }
    }
  }

  // ----- a file that is lost

  /** A chip whose last block is in use and whose other blocks are erased. An erase passes, the
      next program fails, and nothing else does. */
  function HalfUsed(g: Geometry, s: nat, junk: nat -> Page): Chip {
    Chip(UsedBehind(g, s), [Pass, Fail(junk), Pass])
  }

  function UsedBehind(g: Geometry, s: nat): (r: seq<Block>)
    ensures |r| == s + 2 && r[s] == ErasedBlock(g) && r[s + 1] == UsedBlock(g) && forall i | 0 <= i < s :: r[i] == ErasedBlock(g)
  {
    seq(s + 1, i => ErasedBlock(g)) + [UsedBlock(g)]
  }

  lemma {:induction false} UsedBehindIsValid(g: Geometry, s: nat, st: seq<Status>)
    requires g.Valid()
    ensures Shaped(g, Chip(UsedBehind(g, s), st)) && GoodBlocksValid(g, UsedBehind(g, s), s) && GoodFrom(g, UsedBehind(g, s), s) == [s, s + 1]
  {
    var bl := UsedBehind(g, s);
    ErasedBlockIsGood(g);
    UsedBlockIsGood(g);
    assert GoodFrom(g, bl, s + 2) == [];
    assert GoodFrom(g, bl, s + 1) == [s + 1];
  }

  lemma {:induction false} EraseOneErased(g: Geometry, bl: seq<Block>, s: nat, s1: nat, rest: seq<Status>)
    requires g.Valid() && s1 == s + 1 && s < |bl| && bl[s] == ErasedBlock(g)
    ensures EraseBlocks(g, Chip(bl, [Pass] + rest), s, 1, false) == Some((Chip(bl, rest), s1))
  {
    var c := Chip(bl, [Pass] + rest);
    ErasedBlockIsGood(g);
    assert RestStatus(c) == rest && EraseOne(g, c, s) == Chip(bl, rest);
    EraseFromStep(g, c, s, s1, s1, false, Chip(bl, rest));
  }

  /** One transfer whose first page has five bytes set in its first sector is lost on that chip,
      and the call returns as if all were well. */
  lemma {:induction false} TransferIsLost(rs: Engine, rd: Reader, g: Geometry, s: nat, junk: nat -> Page, q: Request, ps: seq<nat>)
    requires Sound(rs) && g.Valid() && g.plane == 1 && rd == ReaderOf(rs, g, NoOob) && GoodRequest(rd, g, q)
    requires q.imgs[0].Some? && |q.want[0]| == g.ps && Spread(ps) && forall k | 0 <= k < 5 :: q.want[0][ps[k]] != 0
    ensures var r := EraseAndSend(rd, g, HalfUsed(g, s, junk), At(s, 0, g.ppb), [q], false);
            r.Some? && !ImageReadBack(rd, g, r.value.0.blocks, At(s, 0, g.ppb), [q], r.value.2)
  {
    var bl, st, all, p := UsedBehind(g, s), FailPass(junk, 1), [s, s + 1], At(s, 0, g.ppb);
    assert st == [Fail(junk), Pass] && [Pass] + st == [Pass, Fail(junk), Pass];
    EraseOneErased(g, bl, s, s + 1, st);
    ErasedReads(rd, g, q);
    UsedBehindIsValid(g, s, [Pass] + st);
    UsedBehindIsValid(g, s, st);
    var fs := DriveFailing(rd, g, Chip(bl, st), [q], s, p, junk, 1, all);
    assert fs[0] == all[1 + 0];
    Split(s, 0, g.ppb);
    var r := EraseAndSend(rd, g, HalfUsed(g, s, junk), p, [q], false);
    LostInUsed(rs, rd, g, s, HalfUsed(g, s, junk), Chip(bl, st), q, ps, r.value.0, r.value.1, r.value.2, fs);
  }

  lemma {:induction false} LostInUsed(rs: Engine, rd: Reader, g: Geometry, s: nat, c: Chip, c1: Chip, q: Request, ps: seq<nat>, c2: Chip, e: nat,
                                      end: nat, fs: seq<nat>)
    requires Sound(rs) && g.Valid() && rd == ReaderOf(rs, g, NoOob) && GoodRequest(rd, g, q) && Shaped(g, c) && GoodBlocksValid(g, c.blocks, s)
    requires q.imgs[0].Some? && |q.want[0]| == g.ps && Spread(ps) && forall k | 0 <= k < 5 :: q.want[0][ps[k]] != 0
    requires c.blocks == UsedBehind(g, s) && EraseBlocks(g, c, s, 1, false) == Some((c1, e)) && e == s + 1
    requires NoneEmpty([q]) && EraseAndSend(rd, g, c, At(s, 0, g.ppb), [q], false) == Some((c2, e, end))
    requires fs == Landings(rd, g, c1, [q], At(s, 0, g.ppb)) && |fs| == 1 && fs[0] == s + 1
    ensures !ImageReadBack(rd, g, c2.blocks, At(s, 0, g.ppb), [q], end)
  {
    var c0, fs0 := SentOver(rd, g, c, s, [q], false, c2, e, end);
    ZerosAreRead(rs, g, q.imgs[0].value, q.want[0], ps);
    assert !PageReads(rd, UsedBlock(g), q, 0);
    assert !OneReads(rd, c.blocks, [q], fs, 0);
  }

  /** nand_program_file erases only as many blocks as the file needs, so that one failed page
      sends the payload on into a block that this call has not erased. Any file of less than a
      block whose first sector has five bytes that are not zero, no two of them next to each other
      and the first of them not 0xff, is lost on this chip, and the call reports success. The
      start page lies behind the boot pages. */
  lemma {:induction false} FileIsLost(rs: Engine, rd: Reader, g: Geometry, s: nat, start: nat, junk: nat -> Page, file: seq<byte>, ps: seq<nat>)
    requires Sound(rs) && g.Valid() && g.plane == 1 && MarksClear(g) && rd == ReaderOf(rs, g, NoOob) && start == At(s, 0, g.ppb) && start > 8
    requires Spread(ps) && ps[4] < |file| < Transfer(g) && forall k | 0 <= k < 5 :: file[ps[k]] != 0
    requires file[ps[0]] != 0xff
    ensures var r := FlashFile.FlashFile(rs, rd, g, HalfUsed(g, s, junk), start, file, false);
            r.Some? && !FileRead(rd, g, r.value.0.blocks, s, file, r.value.2)
  {
    var q := ShortFile(rs, rd, g, file, ps[0]);
    FiveStay(file, q.want[0], ps);
    TransferIsLost(rs, rd, g, s, junk, q, ps);
    var r := EraseAndSend(rd, g, HalfUsed(g, s, junk), start, [q], false);
    FileReadIsReadBack(rs, rd, g, r.value.0.blocks, s, file, [q], r.value.2);
  }

  /** For example, a page of ones. */
  lemma {:induction false} PageIsLost(rs: Engine, rd: Reader, g: Geometry, s: nat, start: nat, junk: nat -> Page, file: seq<byte>)
    requires Sound(rs) && g.Valid() && g.plane == 1 && MarksClear(g) && rd == ReaderOf(rs, g, NoOob) && start == At(s, 0, g.ppb) && start > 8
    requires |file| == g.ps && forall i | 0 <= i < |file| :: file[i] == 1
    ensures var r := FlashFile.FlashFile(rs, rd, g, HalfUsed(g, s, junk), start, file, false);
            r.Some? && !FileRead(rd, g, r.value.0.blocks, s, file, r.value.2)
  {
    AtStep(g.ppb - 1, 0, g.ps);
    AtIsLinear(g.ppb - 1, 0, g.ps);
    FileIsLost(rs, rd, g, s, start, junk, file, [0, 2, 4, 6, 8]);
  }
}
