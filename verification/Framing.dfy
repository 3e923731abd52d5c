// Length-prefixed byte strings, as the key combiner and the key derivation write them.
module Framing {
  import opened Bytes

  /** The 64-bit big-endian length, then the bytes. */
  function Frame(p: seq<Byte>): seq<Byte> {
    BigEndian(|p|, 8) + p
  }

  function Frames(parts: seq<seq<Byte>>): seq<Byte> {
    if parts == [] then [] else Frame(parts[0]) + Frames(parts[1..])
  }

  /** Sizes that a byte string in memory can have. */
  predicate InMemory(p: seq<Byte>) { |p| <= U64_MAX }

  /** The first frame can be split off in one way only. */
  lemma FramePeel(p: seq<Byte>, x: seq<Byte>, q: seq<Byte>, y: seq<Byte>)
    requires InMemory(p) && InMemory(q) && Frame(p) + x == Frame(q) + y
    ensures p == q && x == y
  {
    var a, b := BigEndian(|p|, 8), BigEndian(|q|, 8);
    Split(a, p, x);
    Split(b, q, y);
    BigEndian8Injective(|p|, |q|);
  }

  lemma Split(a: seq<Byte>, p: seq<Byte>, x: seq<Byte>)
    ensures (a + p + x)[..|a|] == a
    ensures (a + p + x)[|a|..|a| + |p|] == p
    ensures (a + p + x)[|a| + |p|..] == x
  {
  }

  /** A list of frames determines its parts, however many there are. */
  lemma {:induction false} FramesInjective(ps: seq<seq<Byte>>, qs: seq<seq<Byte>>)
    requires (forall p | p in ps :: InMemory(p)) && (forall q | q in qs :: InMemory(q))
    requires Frames(ps) == Frames(qs)
    ensures ps == qs
  {
    if ps != [] && qs != [] {
      FramePeel(ps[0], Frames(ps[1..]), qs[0], Frames(qs[1..]));
      FramesInjective(ps[1..], qs[1..]);
    }
  }

  lemma FramesTake(ps: seq<seq<Byte>>, k: nat)
    requires k < |ps|
    ensures Frames(ps[..k + 1]) == Frames(ps[..k]) + Frame(ps[k])
  {
    FramesSnoc(ps[..k], ps[k]);
    assert ps[..k + 1] == ps[..k] + [ps[k]];
  }

  /** Six parts, one frame after the other. */
  lemma SixFrames(p: seq<seq<Byte>>)
    requires |p| == 6
    ensures Frames(p) == Frame(p[0]) + Frame(p[1]) + Frame(p[2]) + Frame(p[3]) + Frame(p[4]) + Frame(p[5])
  {
    hide Frame;
    hide Frames;
    NoFrames(p);
    FramesTake(p, 0);
    FramesTake(p, 1);
    FramesTake(p, 2);
    FramesTake(p, 3);
    FramesTake(p, 4);
    FramesTake(p, 5);
    assert p[..6] == p;
    assert [] + Frame(p[0]) == Frame(p[0]);
  }

  lemma NoFrames(p: seq<seq<Byte>>)
    ensures Frames(p[..0]) == []
  {
  }

  lemma {:induction false} FramesSnoc(ps: seq<seq<Byte>>, p: seq<Byte>)
    ensures Frames(ps + [p]) == Frames(ps) + Frame(p)
  {
    if ps == [] {
      assert Frames([p][1..]) == [];
    } else {
      FramesSnoc(ps[1..], p);
      assert (ps + [p])[1..] == ps[1..] + [p];
    }
  }
}
