/** Byte strings: concatenation of pieces, first position of a byte, and the
    delimiter-split of a stream. */
module Bytes {

  newtype byte = x: int | 0 <= x < 256

  function Min(a: nat, b: nat): nat {
    if a < b then a else b
  }

  /** The pieces put end to end. */
  function Concat(parts: seq<seq<byte>>): seq<byte> {
    if parts == [] then [] else Concat(parts[..|parts| - 1]) + parts[|parts| - 1]
  }

  lemma ConcatSnoc(parts: seq<seq<byte>>, p: seq<byte>)
    ensures Concat(parts + [p]) == Concat(parts) + p
  {
    assert (parts + [p])[..|parts|] == parts;
  }

  /** The first position of `d` in `s`, or `|s|`. */
  function IndexOf(s: seq<byte>, d: byte): (n: nat)
    ensures n <= |s| && (n < |s| ==> s[n] == d)
    ensures forall i :: 0 <= i < n ==> s[i] != d
  {
    if s == [] || s[0] == d then 0 else 1 + IndexOf(s[1..], d)
  }

  /** `f` ends with `d` and holds it nowhere else. */
  predicate Framed(f: seq<byte>, d: byte) {
    |f| > 0 && f[|f| - 1] == d && d !in f[..|f| - 1]
  }

  /** The complete frames of a stream: cut after each `d`. */
  function Frames(s: seq<byte>, d: byte): seq<seq<byte>>
    decreases |s|
  {
    var n := IndexOf(s, d);
    if n == |s| then [] else [s[..n + 1]] + Frames(s[n + 1..], d)
  }

  /** Every complete frame of `s` has at most `max` bytes and the unfinished one has fewer. */
  predicate Fits(s: seq<byte>, d: byte, max: nat)
    decreases |s|
  {
    var n := IndexOf(s, d);
    if n == |s| then n < max else n + 1 <= max && Fits(s[n + 1..], d, max)
  }

  lemma IndexOfFramed(f: seq<byte>, rest: seq<byte>, d: byte)
    requires Framed(f, d)
    ensures IndexOf(f + rest, d) == |f| - 1
  {
    var s := f + rest;
    assert s[|f| - 1] == d;
    assert forall i :: 0 <= i < |f| - 1 ==> f[..|f| - 1][i] == s[i];
  }

  lemma IndexOfAbsent(p: seq<byte>, rest: seq<byte>, d: byte)
    requires d !in p
    ensures IndexOf(p + rest, d) >= |p|
  {
    assert forall i :: 0 <= i < |p| ==> (p + rest)[i] == p[i];
  }

  lemma FramedFirst(f: seq<byte>, rest: seq<byte>, d: byte)
    requires Framed(f, d)
    ensures Frames(f + rest, d) == [f] + Frames(rest, d)
  {
    IndexOfFramed(f, rest, d);
    assert (f + rest)[..|f|] == f && (f + rest)[|f|..] == rest;
  }

  lemma {:induction false} FramedParts(parts: seq<seq<byte>>, rest: seq<byte>, d: byte)
    requires forall p :: p in parts ==> Framed(p, d)
    ensures Frames(Concat(parts) + rest, d) == parts + Frames(rest, d)
  {
    hide Frames;
    if parts == [] {
      assert Concat(parts) + rest == rest;
    } else {
      var init, p := parts[..|parts| - 1], parts[|parts| - 1];
      assert Concat(parts) + rest == Concat(init) + (p + rest);
      assert parts == init + [p];
      FramedParts(init, p + rest, d);
      FramedFirst(p, rest, d);
      assert init + ([p] + Frames(rest, d)) == parts + Frames(rest, d);
    }
  }

  /** Extending a stream keeps the frames it already had. */
  lemma {:induction false} FramesExtend(s: seq<byte>, more: seq<byte>, d: byte)
    ensures Frames(s, d) <= Frames(s + more, d)
    decreases |s|
  {
    var n := IndexOf(s, d);
    if n < |s| {
      var f, rest := s[..n + 1], s[n + 1..];
      FirstFrame(s, d);
      SplitMore(s, n + 1, more);
      hide Frames; hide IndexOf; hide Framed;
      FramedFirst(f, rest, d);
      FramedFirst(f, rest + more, d);
      FramesExtend(rest, more, d);
      PrefixCons(f, Frames(rest, d), Frames(rest + more, d));
    }
  }

  lemma SplitMore(s: seq<byte>, n: nat, more: seq<byte>)
    requires n <= |s|
    ensures s == s[..n] + s[n..] && s + more == s[..n] + (s[n..] + more)
  {
  }

  lemma PrefixCons<T>(f: T, a: seq<T>, b: seq<T>)
    requires a <= b
    ensures [f] + a <= [f] + b
  {
  }

  lemma FirstFrame(s: seq<byte>, d: byte)
    requires IndexOf(s, d) < |s|
    ensures Framed(s[..IndexOf(s, d) + 1], d)
  {
    var n := IndexOf(s, d);
    assert s[..n + 1][..n] == s[..n];
  }

  lemma FitsFirst(f: seq<byte>, rest: seq<byte>, d: byte, max: nat)
    requires Framed(f, d)
    ensures Fits(f + rest, d, max) <==> |f| <= max && Fits(rest, d, max)
  {
    IndexOfFramed(f, rest, d);
    assert (f + rest)[|f|..] == rest;
  }

  /** A stream that fits still fits when cut short. */
  lemma {:induction false} FitsPrefix(s: seq<byte>, more: seq<byte>, d: byte, max: nat)
    requires Fits(s + more, d, max)
    ensures Fits(s, d, max)
    decreases |s|
  {
    var n := IndexOf(s, d);
    if n < |s| {
      FirstFrame(s, d);
      assert s + more == s[..n + 1] + (s[n + 1..] + more);
      FitsFirst(s[..n + 1], s[n + 1..] + more, d, max);
      FitsPrefix(s[n + 1..], more, d, max);
    } else {
      IndexOfAbsent(s, more, d);
    }
  }

  lemma {:induction false} ConcatCons(p: seq<byte>, parts: seq<seq<byte>>)
    ensures Concat([p] + parts) == p + Concat(parts)
  {
    if parts == [] {
      assert Concat([p]) == Concat([]) + p;
    } else {
      var init, q := parts[..|parts| - 1], parts[|parts| - 1];
      assert [p] + parts == ([p] + init) + [q];
      ConcatSnoc([p] + init, q);
      ConcatCons(p, init);
    }
  }

  /** The frames are what they are meant to be: pieces that end with `d` and hold it nowhere else, end to
      end, and behind them no other `d`. */
  lemma {:induction false} FramesAre(s: seq<byte>, d: byte)
    ensures forall f :: f in Frames(s, d) ==> Framed(f, d)
    ensures Concat(Frames(s, d)) <= s && d !in s[|Concat(Frames(s, d))|..]
    decreases |s|
  {
    var n := IndexOf(s, d);
    if n < |s| {
      var f, rest := s[..n + 1], s[n + 1..];
      FirstFrame(s, d);
      FramesAre(rest, d);
      ConcatCons(f, Frames(rest, d));
      BehindFrames(f, rest, Concat(Frames(rest, d)), d);
      assert s == f + rest;
      hide Concat; hide IndexOf; hide Framed;
    } else {
      assert s[0..] == s;
      hide Framed;
    }
  }

  lemma BehindFrames(f: seq<byte>, rest: seq<byte>, c: seq<byte>, d: byte)
    requires c <= rest && d !in rest[|c|..]
    ensures f + c <= f + rest && d !in (f + rest)[|f + c|..]
  {
    assert rest == c + rest[|c|..];
    assert f + rest == (f + c) + rest[|c|..];
  }
}
