/** Byte buffers that are filled piece by piece. */
module Splices {
  import opened RsCode

  /** `s` with `x` written over it from position `t`. */
  function Splice(s: seq<byte>, t: nat, x: seq<byte>): (r: seq<byte>)
    requires t + |x| <= |s|
    ensures |r| == |s|
  {
    s[..t] + x + s[t + |x|..]
  }

  lemma SpliceParts(s: seq<byte>, t: nat, x: seq<byte>)
    requires t + |x| <= |s|
    ensures var r := Splice(s, t, x);
            r[..t] == s[..t] && r[t..t + |x|] == x && r[t + |x|..] == s[t + |x|..]
  {
  }

  lemma SpliceFrom(s: seq<byte>, t: nat, r: seq<byte>, x: seq<byte>)
    requires t + |x| <= |s| == |r|
    requires r[..t] == s[..t] && r[t..t + |x|] == x && r[t + |x|..] == s[t + |x|..]
    ensures r == Splice(s, t, x)
  {
    assert r == r[..t] + r[t..t + |x|] + r[t + |x|..];
  }

  lemma SpliceTwice(s: seq<byte>, t: nat, x: seq<byte>, y: seq<byte>)
    requires t + |x| <= |s| && |x| == |y|
    ensures Splice(Splice(s, t, x), t, y) == Splice(s, t, y)
  {
  }

  lemma SpliceOn(s: seq<byte>, t: nat, x: seq<byte>, y: seq<byte>)
    requires t + |x| + |y| <= |s|
    ensures Splice(Splice(s, t, x), t + |x|, y) == Splice(s, t, x + y)
  {
  }

  lemma SpliceOnAt(s: seq<byte>, t: nat, next: nat, x: seq<byte>, y: seq<byte>)
    requires next == t + |x| && next + |y| <= |s|
    ensures Splice(Splice(s, t, x), next, y) == Splice(s, t, x + y)
  {
    SpliceOn(s, t, x, y);
  }
}
