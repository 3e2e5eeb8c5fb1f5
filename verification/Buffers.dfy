/** A read in progress: the buffer it fills and the error word it leaves. */
module Buffers {
  import opened Options
  import opened RsCode
  import opened Flash
  import opened PageFormat
  import opened PageNumbers
  import opened NandSpec
  import opened ImageFile
  import opened Splices

  // ----- what the driver reports about a read

  /** A sector that decodes cleanly or is erased, one that is lost, one that was corrected. */
  datatype Verdict = Quiet | Lost | Fixed

  function VerdictOf(rs: Engine, raw: seq<byte>, par: seq<byte>): Verdict {
    match rs.decode(raw, par)
    case NoError => Quiet
    case Uncorrectable => if par != Ones(|par|) then Lost else Quiet
    case Errors(_, _) => Fixed
  }

  /** handshake_PKT[3] after one more sector. */
  function Say(flag: bool, v: Verdict): bool {
    match v
    case Quiet => flag
    case Lost => true
    case Fixed => false
  }

  function SayAll(flag: bool, vs: seq<Verdict>): bool
    decreases |vs|
  {
    if vs == [] then flag else SayAll(Say(flag, vs[0]), vs[1..])
  }

  lemma {:induction false} SayAppend(flag: bool, a: seq<Verdict>, b: seq<Verdict>)
    ensures SayAll(flag, a + b) == SayAll(SayAll(flag, a), b)
    decreases |a|
  {
    if a == [] {
      assert a + b == b;
    } else {
      assert (a + b)[1..] == a[1..] + b;
      SayAppend(Say(flag, a[0]), a[1..], b);
    }
  }

  /** The word the host receives is not "some sector was lost": a later corrected sector
      clears it. It is set exactly when a lost sector has no corrected one after it. */
  lemma {:induction false} FlagMeans(vs: seq<Verdict>)
    ensures SayAll(false, vs) <==> exists i :: LastLost(vs, i)
  {
    if vs != [] {
      var n := |vs| - 1;
      assert vs == vs[..n] + [vs[n]];
      SayAppend(false, vs[..n], [vs[n]]);
      FlagMeans(vs[..n]);
      match vs[n] {
        case Lost => assert LastLost(vs, n);
        case Fixed =>
        case Quiet =>
          if i :| LastLost(vs[..n], i) {
            assert LastLost(vs, i);
          }
          if i :| LastLost(vs, i) {
            assert LastLost(vs[..n], i);
          }
      }
    }
  }

  ghost predicate LastLost(vs: seq<Verdict>, i: int) {
    0 <= i < |vs| && vs[i] == Lost && forall j | i < j < |vs| :: vs[j] != Fixed
  }

  /** A lost sector followed by a corrected one leaves no trace. */
  lemma LostIsForgotten()
    ensures !SayAll(false, [Lost, Fixed])
  {
    assert SayAll(true, [Fixed]) == SayAll(false, []);
  }

  /** The verdicts on the first `n` sectors of a page. */
  function SectorVerdicts(rs: Engine, raw: seq<byte>, par: seq<byte>, n: nat): (r: seq<Verdict>)
    requires ECC_BLOCK * n <= |raw| && PAR_SIZE * n <= |par|
    ensures |r| == n
  {
    if n == 0 then []
    else SectorVerdicts(rs, raw, par, n - 1) + [VerdictOf(rs, Sector(raw, n - 1), par[PAR_SIZE * (n - 1)..PAR_SIZE * n])]
  }

  lemma {:induction false} VerdictStep(rs: Engine, raw: seq<byte>, par: seq<byte>, j: nat, j1: nat, s: seq<byte>, p: seq<byte>)
    requires j1 == j + 1 && ECC_BLOCK * j1 <= |raw| && PAR_SIZE * j1 <= |par|
    requires s == Sector(raw, j) && p == par[PAR_SIZE * j..PAR_SIZE * j1]
    ensures SectorVerdicts(rs, raw, par, j1) == SectorVerdicts(rs, raw, par, j) + [VerdictOf(rs, s, p)]
  {
    assert j == j1 - 1;
  }

  /** The verdicts on the sectors of a stored page. */
  function PageVerdicts(rs: Engine, g: Geometry, p: Page): seq<Verdict>
    requires g.Valid()
  {
    if |p.data| == g.ps && |p.oob| == g.os then SectorVerdicts(rs, p.data, StoredParity(g, p), g.Sectors()) else []
  }

  // ----- a read in progress

  /** The state of the page loop of nand_read: the buffer filled up to `t`, the error word,
      the page reached and the number of pages to go. */
  datatype ReadState = ReadState(t: nat, now: seq<byte>, flag: bool, cur: nat, left: nat)

  function AfterPage(rs: Engine, rd: Reader, g: Geometry, page: Page, s: ReadState): ReadState
    requires g.Valid() && s.left > 0 && s.t + |rd(page)| <= |s.now|
  {
    ReadState(s.t + |rd(page)|, Splice(s.now, s.t, rd(page)), SayAll(s.flag, PageVerdicts(rs, g, page)), s.cur + 1, s.left - 1)
  }

  predicate AtBadBlock(g: Geometry, bl: seq<Block>, p: nat)
    requires g.ppb > 0 && Blk(p, g.ppb) < |bl|
  {
    Idx(p, g.ppb) == 0 && IsBad(g, bl[Blk(p, g.ppb)])
  }

  /** One round of the loop; None when the page is off the chip or does not fit the buffer. */
  function Round(rs: Engine, rd: Reader, g: Geometry, bl: seq<Block>, s: ReadState): (r: Option<ReadState>)
    requires g.Valid() && s.left > 0
    ensures r.Some? ==>
              || r.value.left < s.left
              || (r.value.left == s.left && Blk(s.cur, g.ppb) < |bl| && Blk(s.cur, g.ppb) < Blk(r.value.cur, g.ppb))
  {
    NextBlock(s.cur, g.ppb);
    if Blk(s.cur, g.ppb) >= |bl| then None
    else if AtBadBlock(g, bl, s.cur) then Some(s.(cur := s.cur + g.ppb))
    else if s.t + |rd(PageAt(g, bl, s.cur))| > |s.now| then None
    else Some(AfterPage(rs, rd, g, PageAt(g, bl, s.cur), s))
  }

  /** The round that reads a page. */
  lemma {:induction false} RoundReads(rs: Engine, rd: Reader, g: Geometry, bl: seq<Block>, s: ReadState, t: nat, cur: nat, left: nat)
    requires g.Valid() && s.left > 0 && Blk(s.cur, g.ppb) < |bl| && !AtBadBlock(g, bl, s.cur)
    requires t == s.t + |rd(PageAt(g, bl, s.cur))| <= |s.now| && cur == s.cur + 1 && left == s.left - 1
    ensures var page := PageAt(g, bl, s.cur);
            Round(rs, rd, g, bl, s) == Some(ReadState(t, Splice(s.now, s.t, rd(page)), SayAll(s.flag, PageVerdicts(rs, g, page)), cur, left))
  {
  }

  /** How the loop ends from a given state. */
  function Finish(rs: Engine, rd: Reader, g: Geometry, bl: seq<Block>, s: ReadState): (r: Option<ReadState>)
    requires g.Valid()
    decreases s.left, |bl| - Blk(s.cur, g.ppb)
  {
    if s.left == 0 then Some(s)
    else
      match Round(rs, rd, g, bl, s)
      case None => None
      case Some(s1) => Finish(rs, rd, g, bl, s1)
  }

  /** The verdicts of a read, in the order in which the pages are read. */
  function ReadVerdicts(rs: Engine, g: Geometry, bl: seq<Block>, ps: seq<nat>): seq<Verdict>
    requires g.Valid() && forall i | 0 <= i < |ps| :: Blk(ps[i], g.ppb) < |bl|
  {
    if ps == [] then []
    else PageVerdicts(rs, g, PageAt(g, bl, ps[0])) + ReadVerdicts(rs, g, bl, ps[1..])
  }

  /** The state after pages whose bytes are `out` and whose verdicts are `vs`. */
  function AfterPages(s: ReadState, out: seq<byte>, vs: seq<Verdict>, end: nat): ReadState
    requires s.t + |out| <= |s.now|
  {
    ReadState(s.t + |out|, Splice(s.now, s.t, out), SayAll(s.flag, vs), end, 0)
  }

  lemma DeliverFirst(rs: Engine, rd: Reader, g: Geometry, bl: seq<Block>, p: nat, ps: seq<nat>)
    requires g.Valid() && Blk(p, g.ppb) < |bl| && forall i | 0 <= i < |ps| :: Blk(ps[i], g.ppb) < |bl|
    ensures Flat(Deliver(rd, g, bl, [p] + ps)) == rd(PageAt(g, bl, p)) + Flat(Deliver(rd, g, bl, ps))
    ensures ReadVerdicts(rs, g, bl, [p] + ps) == PageVerdicts(rs, g, PageAt(g, bl, p)) + ReadVerdicts(rs, g, bl, ps)
  {
    assert Deliver(rd, g, bl, [p] + ps)[1..] == Deliver(rd, g, bl, ps);
    assert ([p] + ps)[1..] == ps;
  }

  lemma AfterPagesFirst(rs: Engine, rd: Reader, g: Geometry, page: Page, s: ReadState, out: seq<byte>, vs: seq<Verdict>, end: nat)
    requires g.Valid() && s.left > 0 && s.t + |rd(page)| + |out| <= |s.now|
    ensures AfterPages(s, rd(page) + out, PageVerdicts(rs, g, page) + vs, end)
         == AfterPages(AfterPage(rs, rd, g, page, s), out, vs, end)
  {
    SpliceOn(s.now, s.t, rd(page), out);
    SayAppend(s.flag, PageVerdicts(rs, g, page), vs);
  }

  /** What a walk delivers, as bytes and as verdicts. */
  ghost predicate Brings(rs: Engine, rd: Reader, g: Geometry, bl: seq<Block>, walk: Option<(seq<nat>, nat)>, out: seq<byte>, vs: seq<Verdict>)
    requires g.Valid()
  {
    match walk
    case None => true
    case Some((ps, _)) =>
      && (forall i | 0 <= i < |ps| :: Blk(ps[i], g.ppb) < |bl|)
      && out == Flat(Deliver(rd, g, bl, ps)) && vs == ReadVerdicts(rs, g, bl, ps)
  }

  function Ending(s: ReadState, walk: Option<(seq<nat>, nat)>, out: seq<byte>, vs: seq<Verdict>): Option<ReadState>
    requires s.t + |out| <= |s.now|
  {
    match walk
    case None => None
    case Some((_, end)) => Some(AfterPages(s, out, vs, end))
  }

  lemma EndingMoved(s: ReadState, s1: ReadState, walk: Option<(seq<nat>, nat)>, out: seq<byte>, vs: seq<Verdict>)
    requires s.t + |out| <= |s.now| && s1.t == s.t && s1.now == s.now && s1.flag == s.flag
    ensures Ending(s1, walk, out, vs) == Ending(s, walk, out, vs)
  {
  }

  lemma {:induction false} FinishBad(rs: Engine, rd: Reader, g: Geometry, bl: seq<Block>, s: ReadState, s1: ReadState)
    requires g.Valid() && s.left > 0 && Blk(s.cur, g.ppb) < |bl| && AtBadBlock(g, bl, s.cur)
    requires s1 == s.(cur := s.cur + g.ppb)
    ensures Finish(rs, rd, g, bl, s) == Finish(rs, rd, g, bl, s1)
  {
  }

  lemma {:induction false} WalkBad(g: Geometry, bl: seq<Block>, p: nat, p1: nat, n: nat)
    requires g.Valid() && n > 0 && Blk(p, g.ppb) < |bl| && AtBadBlock(g, bl, p) && p1 == p + g.ppb
    ensures Blk(p1, g.ppb) == Blk(p, g.ppb) + 1
    ensures Walk(Bads(g, bl), g.ppb, p, n) == Walk(Bads(g, bl), g.ppb, p1, n)
  {
    WalkPast(Bads(g, bl), g.ppb, p, p1, n);
  }

  lemma {:induction false} FinishGood(rs: Engine, rd: Reader, g: Geometry, bl: seq<Block>, s: ReadState)
    requires g.Valid() && s.left > 0 && Blk(s.cur, g.ppb) < |bl| && !AtBadBlock(g, bl, s.cur)
    ensures Finish(rs, rd, g, bl, s) ==
            if s.t + |rd(PageAt(g, bl, s.cur))| > |s.now| then None
            else Finish(rs, rd, g, bl, AfterPage(rs, rd, g, PageAt(g, bl, s.cur), s))
  {
  }

  lemma NothingDelivered(rs: Engine, rd: Reader, g: Geometry, bl: seq<Block>, s: ReadState, out: seq<byte>, vs: seq<Verdict>)
    requires g.Valid() && s.left == 0 && s.t + |out| <= |s.now|
    requires Brings(rs, rd, g, bl, Some(([], s.cur)), out, vs)
    ensures AfterPages(s, out, vs, s.cur) == s
  {
    assert Deliver(rd, g, bl, []) == [] && Splice(s.now, s.t, []) == s.now;
  }

  /** From state `s`, the loop ends as the walk does. */
  ghost predicate FollowsWalk(rs: Engine, rd: Reader, g: Geometry, bl: seq<Block>, s: ReadState, walk: Option<(seq<nat>, nat)>, out: seq<byte>, vs: seq<Verdict>)
    requires g.Valid() && s.t + |out| <= |s.now|
  {
    Finish(rs, rd, g, bl, s) == Ending(s, walk, out, vs)
  }

  lemma {:induction false} FollowsPast(rs: Engine, rd: Reader, g: Geometry, bl: seq<Block>, s: ReadState, s1: ReadState, walk: Option<(seq<nat>, nat)>, out: seq<byte>, vs: seq<Verdict>)
    requires g.Valid() && s.t + |out| <= |s.now| && s.left > 0 && Blk(s.cur, g.ppb) < |bl| && AtBadBlock(g, bl, s.cur)
    requires s1 == s.(cur := s.cur + g.ppb) && FollowsWalk(rs, rd, g, bl, s1, walk, out, vs)
    ensures FollowsWalk(rs, rd, g, bl, s, walk, out, vs)
  {
    FinishBad(rs, rd, g, bl, s, s1);
    EndingMoved(s, s1, walk, out, vs);
  }

  /** What is left of a walk, its bytes and its verdicts when its first page is taken off. */
  ghost predicate Behead(rs: Engine, rd: Reader, g: Geometry, page: Page, p: nat, walk: Option<(seq<nat>, nat)>, out: seq<byte>, vs: seq<Verdict>,
                         rest: Option<(seq<nat>, nat)>, out': seq<byte>, vs': seq<Verdict>)
    requires g.Valid()
  {
    match rest
    case None => walk == None && out' == []
    case Some((ps, end)) => walk == Some(([p] + ps, end)) && out == rd(page) + out' && vs == PageVerdicts(rs, g, page) + vs'
  }

  lemma {:induction false} FollowsPage(rs: Engine, rd: Reader, g: Geometry, bl: seq<Block>, s: ReadState, s1: ReadState, walk: Option<(seq<nat>, nat)>, out: seq<byte>, vs: seq<Verdict>,
                                       rest: Option<(seq<nat>, nat)>, out': seq<byte>, vs': seq<Verdict>)
    requires g.Valid() && s.t + |out| <= |s.now| && s.left > 0 && Blk(s.cur, g.ppb) < |bl| && !AtBadBlock(g, bl, s.cur)
    requires Behead(rs, rd, g, PageAt(g, bl, s.cur), s.cur, walk, out, vs, rest, out', vs')
    requires s.t + |rd(PageAt(g, bl, s.cur))| <= |s.now| && s1 == AfterPage(rs, rd, g, PageAt(g, bl, s.cur), s)
    requires s1.t + |out'| <= |s1.now| && FollowsWalk(rs, rd, g, bl, s1, rest, out', vs')
    ensures FollowsWalk(rs, rd, g, bl, s, walk, out, vs)
  {
    FinishGood(rs, rd, g, bl, s);
    if rest.Some? {
      AfterPagesFirst(rs, rd, g, PageAt(g, bl, s.cur), s, out', vs', rest.value.1);
    }
  }

  lemma {:induction false} FollowsTooShort(rs: Engine, rd: Reader, g: Geometry, bl: seq<Block>, s: ReadState, walk: Option<(seq<nat>, nat)>, out: seq<byte>, vs: seq<Verdict>,
                                           rest: Option<(seq<nat>, nat)>, out': seq<byte>, vs': seq<Verdict>)
    requires g.Valid() && s.t + |out| <= |s.now| && s.left > 0 && Blk(s.cur, g.ppb) < |bl| && !AtBadBlock(g, bl, s.cur)
    requires Behead(rs, rd, g, PageAt(g, bl, s.cur), s.cur, walk, out, vs, rest, out', vs')
    requires s.t + |rd(PageAt(g, bl, s.cur))| > |s.now|
    ensures FollowsWalk(rs, rd, g, bl, s, walk, out, vs)
  {
    FinishGood(rs, rd, g, bl, s);
  }

  /** The loop delivers the pages of the walk, one behind the other, ends where the walk
      ends, and sets the error word from the sectors of those pages. */
  lemma {:induction false} FinishIsWalk(rs: Engine, rd: Reader, g: Geometry, bl: seq<Block>, s: ReadState, walk: Option<(seq<nat>, nat)>, out: seq<byte>, vs: seq<Verdict>)
    requires g.Valid() && s.t + |out| <= |s.now|
    requires walk == Walk(Bads(g, bl), g.ppb, s.cur, s.left) && Brings(rs, rd, g, bl, walk, out, vs)
    ensures FollowsWalk(rs, rd, g, bl, s, walk, out, vs)
    decreases s.left, |bl| - Blk(s.cur, g.ppb), 1
  {
    if s.left == 0 {
      NothingDelivered(rs, rd, g, bl, s, out, vs);
    } else if Blk(s.cur, g.ppb) >= |bl| {
    } else if AtBadBlock(g, bl, s.cur) {
      var s1 := s.(cur := s.cur + g.ppb);
      WalkBad(g, bl, s.cur, s1.cur, s.left);
      FinishIsWalk(rs, rd, g, bl, s1, walk, out, vs);
      FollowsPast(rs, rd, g, bl, s, s1, walk, out, vs);
    } else {
      FinishIsWalkPage(rs, rd, g, bl, s, walk, out, vs);
    }
  }

  lemma {:induction false} FinishIsWalkPage(rs: Engine, rd: Reader, g: Geometry, bl: seq<Block>, s: ReadState, walk: Option<(seq<nat>, nat)>, out: seq<byte>, vs: seq<Verdict>)
    requires g.Valid() && s.t + |out| <= |s.now| && s.left > 0 && Blk(s.cur, g.ppb) < |bl| && !AtBadBlock(g, bl, s.cur)
    requires walk == Walk(Bads(g, bl), g.ppb, s.cur, s.left) && Brings(rs, rd, g, bl, walk, out, vs)
    ensures FollowsWalk(rs, rd, g, bl, s, walk, out, vs)
    decreases s.left, |bl| - Blk(s.cur, g.ppb), 0
  {
    var page := PageAt(g, bl, s.cur);
    var p1, n1 := s.cur + 1, s.left - 1;
    var rest, out', vs' := FirstPageOff(rs, rd, g, bl, s.cur, s.left, p1, n1, walk, out, vs);
    if s.t + |rd(page)| <= |s.now| {
      var s1 := AfterPage(rs, rd, g, page, s);
      assert s1.cur == p1 && s1.left == n1;
      FinishIsWalk(rs, rd, g, bl, s1, rest, out', vs');
      FollowsPage(rs, rd, g, bl, s, s1, walk, out, vs, rest, out', vs');
    } else {
      FollowsTooShort(rs, rd, g, bl, s, walk, out, vs, rest, out', vs');
    }
  }

  /** A walk that begins with a page brings that page's bytes, and then the rest's. */
  lemma {:induction false} FirstPageOff(rs: Engine, rd: Reader, g: Geometry, bl: seq<Block>, p: nat, n: nat, p1: nat, n1: nat, walk: Option<(seq<nat>, nat)>, out: seq<byte>, vs: seq<Verdict>)
    returns (rest: Option<(seq<nat>, nat)>, out': seq<byte>, vs': seq<Verdict>)
    requires g.Valid() && n > 0 && p1 == p + 1 && n1 == n - 1 && Blk(p, g.ppb) < |bl| && !AtBadBlock(g, bl, p)
    requires walk == Walk(Bads(g, bl), g.ppb, p, n) && Brings(rs, rd, g, bl, walk, out, vs)
    ensures rest == Walk(Bads(g, bl), g.ppb, p1, n1) && Brings(rs, rd, g, bl, rest, out', vs')
    ensures Behead(rs, rd, g, PageAt(g, bl, p), p, walk, out, vs, rest, out', vs')
  {
    WalkPage(Bads(g, bl), g.ppb, p, p1, n, n1);
    rest := Walk(Bads(g, bl), g.ppb, p1, n1);
    match rest
    case None =>
      out', vs' := [], [];
    case Some((ps, end)) =>
      DeliverFirst(rs, rd, g, bl, p, ps);
      out', vs' := Flat(Deliver(rd, g, bl, ps)), ReadVerdicts(rs, g, bl, ps);
  }

  lemma {:induction false} FinishByRound(rs: Engine, rd: Reader, g: Geometry, bl: seq<Block>, s: ReadState, s1: ReadState)
    requires g.Valid() && s.left > 0 && Round(rs, rd, g, bl, s) == Some(s1)
    ensures Finish(rs, rd, g, bl, s) == Finish(rs, rd, g, bl, s1)
  {
  }
}
