/** What became of each byte a stream handed over. */
module Fates {
  import opened Bytes

  /** `Late`: it came for a request already given up.
      `LookAhead`: it was fetched one byte ahead of a satisfied request and thrown away. */
  datatype Fate = Kept | Late | LookAhead

  /** The bytes that were not lost, in order. */
  function KeptBytes(taken: seq<byte>, fate: seq<Fate>): seq<byte>
    requires |taken| == |fate|
  {
    if taken == [] then []
    else
      var n := |taken| - 1;
      KeptBytes(taken[..n], fate[..n]) + (if fate[n].Kept? then [taken[n]] else [])
  }

  /** How many bytes met the fate `f`. */
  function Count(fate: seq<Fate>, f: Fate): nat {
    if fate == [] then 0
    else Count(fate[..|fate| - 1], f) + (if fate[|fate| - 1] == f then 1 else 0)
  }

  /** Marks the kept bytes number `from` up to `to` (counting kept bytes only) as lost. */
  function Lose(fate: seq<Fate>, from: nat, to: nat, why: Fate): (r: seq<Fate>)
    ensures |r| == |fate|
  {
    if fate == [] then []
    else
      var n := |fate| - 1;
      var k := Count(fate[..n], Kept);
      Lose(fate[..n], from, to, why) + [if fate[n].Kept? && from <= k < to then why else fate[n]]
  }

  function Same(f: Fate, n: nat): seq<Fate> {
    seq(n, i => f)
  }

  lemma {:induction false} KeptCount(taken: seq<byte>, fate: seq<Fate>)
    requires |taken| == |fate|
    ensures |KeptBytes(taken, fate)| == Count(fate, Kept)
  {
    if taken != [] {
      KeptCount(taken[..|taken| - 1], fate[..|taken| - 1]);
    }
  }

  /** `s` without its positions `from` up to `to`. */
  function Cut(s: seq<byte>, from: nat, to: nat): seq<byte>
    requires from <= to
  {
    s[..Min(from, |s|)] + s[Min(to, |s|)..]
  }

  /** Losing a stretch of the kept bytes removes exactly that stretch. */
  lemma {:induction false} KeptLose(taken: seq<byte>, fate: seq<Fate>, from: nat, to: nat, why: Fate)
    requires |taken| == |fate| && !why.Kept? && from <= to
    ensures KeptBytes(taken, Lose(fate, from, to, why)) == Cut(KeptBytes(taken, fate), from, to)
  {
    if taken != [] {
      var n := |taken| - 1;
      var t, f := taken[..n], fate[..n];
      KeptCount(t, f);
      KeptLose(t, f, from, to, why);
      assert Lose(fate, from, to, why)[..n] == Lose(f, from, to, why);
      CutSnoc(KeptBytes(t, f), taken[n], from, to);
      hide Cut; hide Count;
    }
  }

  lemma CutSnoc(k: seq<byte>, b: byte, from: nat, to: nat)
    requires from <= to
    ensures Cut(k + [b], from, to) == Cut(k, from, to) + (if from <= |k| < to then [] else [b])
    ensures k + [] == k && Cut(k, from, to) + [] == Cut(k, from, to)
  {
  }

  /** Each lost byte is counted under its reason, and under no other. */
  lemma {:induction false} CountLose(fate: seq<Fate>, from: nat, to: nat, why: Fate, f: Fate)
    requires from <= to && !why.Kept? && !f.Kept?
    ensures var c := Count(fate, Kept);
            Count(Lose(fate, from, to, why), f)
              == Count(fate, f) + (if f == why then Min(to, c) - Min(from, c) else 0)
  {
    if fate != [] {
      var n := |fate| - 1;
      CountLose(fate[..n], from, to, why, f);
      assert Lose(fate, from, to, why)[..n] == Lose(fate[..n], from, to, why);
    }
  }

  /** A chunk appended with one fate. */
  lemma {:induction false} KeptAppend(taken: seq<byte>, fate: seq<Fate>, chunk: seq<byte>, f: Fate)
    requires |taken| == |fate|
    ensures KeptBytes(taken + chunk, fate + Same(f, |chunk|))
         == KeptBytes(taken, fate) + (if f.Kept? then chunk else [])
  {
    if chunk == [] {
      assert taken + chunk == taken && fate + Same(f, 0) == fate;
    } else {
      var n := |chunk| - 1;
      KeptAppend(taken, fate, chunk[..n], f);
      assert (taken + chunk)[..|taken| + n] == taken + chunk[..n];
      assert (fate + Same(f, n + 1))[..|fate| + n] == fate + Same(f, n);
      assert chunk == chunk[..n] + [chunk[n]];
    }
  }

  lemma {:induction false} CountAppend(fate: seq<Fate>, f: Fate, n: nat, g: Fate)
    ensures Count(fate + Same(f, n), g) == Count(fate, g) + (if f == g then n else 0)
  {
    if n == 0 {
      assert fate + Same(f, 0) == fate;
    } else {
      CountAppend(fate, f, n - 1, g);
      assert (fate + Same(f, n))[..|fate| + n - 1] == fate + Same(f, n - 1);
    }
  }

  /** When nothing was lost, the kept bytes are all the bytes. */
  lemma {:induction false} AllKept(taken: seq<byte>, fate: seq<Fate>)
    requires |taken| == |fate| && Count(fate, Late) == 0 && Count(fate, LookAhead) == 0
    ensures KeptBytes(taken, fate) == taken
  {
    if taken != [] {
      var n := |taken| - 1;
      AllKept(taken[..n], fate[..n]);
      assert taken == taken[..n] + [taken[n]];
    }
  }
}
