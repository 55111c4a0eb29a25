/** Binary patches as ext/bspatch/bspatch.c applies them: a control stream of (x, y, z) triples
    that says "add x bytes of the old file to x diff bytes, copy y extra bytes, move z bytes on in
    the old file". */
module BsFormat {
  import opened Common

  type Byte = i: int | 0 <= i < 256

  // ---- Offsets: 63-bit magnitude, little-endian, and a sign bit --------------------------

  function Le(bs: seq<Byte>): nat {
    if bs == [] then 0 else bs[0] + 256 * Le(bs[1..])
  }

  function ToLe(n: nat, k: nat): (bs: seq<Byte>)
    ensures |bs| == k
  {
    if k == 0 then [] else [n % 256] + ToLe(n / 256, k - 1)
  }

  function Pow256(k: nat): (p: nat)
    ensures p > 0
  {
    if k == 0 then 1 else 256 * Pow256(k - 1)
  }

  lemma {:induction false} LeOfToLe(n: nat, k: nat)
    requires n < Pow256(k)
    ensures Le(ToLe(n, k)) == n
  {
    if k > 0 {
      LeOfToLe(n / 256, k - 1);
      assert ToLe(n, k)[1..] == ToLe(n / 256, k - 1);
    }
  }

  lemma {:induction false} ToLeOfLe(bs: seq<Byte>)
    ensures Le(bs) < Pow256(|bs|)
    ensures ToLe(Le(bs), |bs|) == bs
  {
    if bs != [] {
      ToLeOfLe(bs[1..]);
      assert Le(bs) % 256 == bs[0] && Le(bs) / 256 == Le(bs[1..]);
    }
  }

  function TwoTo63(): int { 0x8000_0000_0000_0000 }

  lemma {:induction false} LeSplit(bs: seq<Byte>, top: Byte)
    ensures Le(bs + [top]) == Le(bs) + Pow256(|bs|) * top
  {
    if bs == [] {
      assert Le([top]) == top + 256 * Le([]);
    } else {
      LeSplit(bs[1..], top);
      assert (bs + [top])[1..] == bs[1..] + [top];
      var p := Pow256(|bs| - 1);
      assert 256 * (p * top) == (256 * p) * top;
    }
  }

  lemma Powers()
    ensures Pow256(7) == 0x100_0000_0000_0000
    ensures Pow256(8) == 0x1_0000_0000_0000_0000
  {
    assert Pow256(3) == 0x100_0000;
    assert Pow256(5) == 0x100_0000_0000;
  }

  lemma WordBound(bs: seq<Byte>)
    requires |bs| == 8
    ensures Le(bs) < 2 * TwoTo63()
  {
    ToLeOfLe(bs);
    Powers();
  }

  /** What offtin can give. */
  type Offset = i: int | -TwoTo63() < i < TwoTo63()

  function Offtin(buf: seq<Byte>): (y: Offset)
    requires |buf| == 8
  {
    WordBound(buf);
    var n := Le(buf);
    if n < TwoTo63() then n else TwoTo63() - n
  }

  function Offtout(y: Offset): (buf: seq<Byte>)
    ensures |buf| == 8
  {
    ToLe(if y < 0 then TwoTo63() - y else y, 8)
  }

  /** The top bit of the eighth byte is the sign, the other bits are the magnitude. */
  lemma SignAndMagnitude(buf: seq<Byte>)
    requires |buf| == 8
    ensures Le(buf) >= TwoTo63() <==> buf[7] >= 128
    ensures var n: int := Le(buf[..7] + [buf[7] % 128]);
            Offtin(buf) == if buf[7] >= 128 then -n else n
  {
    assert buf == buf[..7] + [buf[7]];
    TopByte(buf[..7], buf[7]);
    TopByte(buf[..7], buf[7] % 128);
    TopBit(Le(buf[..7]), buf[7]);
  }

  lemma TopBit(low: nat, top: Byte)
    requires low < 0x100_0000_0000_0000
    ensures low + 0x100_0000_0000_0000 * top >= TwoTo63() <==> top >= 128
    ensures top >= 128 ==> low + 0x100_0000_0000_0000 * top
                           == low + 0x100_0000_0000_0000 * (top % 128) + TwoTo63()
    ensures top < 128 ==> top % 128 == top
  {
  }

  lemma TopByte(bs: seq<Byte>, top: Byte)
    requires |bs| == 7
    ensures Le(bs) < 0x100_0000_0000_0000
    ensures Le(bs + [top]) == Le(bs) + 0x100_0000_0000_0000 * top
  {
    ToLeOfLe(bs);
    LeSplit(bs, top);
    Powers();
  }

  /** Every offset survives being written and read. */
  lemma OfftinOfOfftout(y: Offset)
    ensures Offtin(Offtout(y)) == y
  {
    Powers();
    assert Pow256(8) == 2 * TwoTo63();
    LeOfToLe(if y < 0 then TwoTo63() - y else y, 8);
  }

  /** Every eight bytes but the negative zero are the encoding of what they decode to. */
  lemma OfftoutOfOfftin(buf: seq<Byte>)
    requires |buf| == 8
    ensures Offtout(Offtin(buf)) == buf <==> !(Offtin(buf) == 0 && buf[7] >= 128)
  {
    SignAndMagnitude(buf);
    WordBound(buf);
    ToLeOfLe(buf);
    Powers();
    LeOfToLe(0, 8);
  }

  // ---- The control stream ----------------------------------------------------------------

  /** One control triple. */
  datatype Triple = Triple(x: Offset, y: Offset, z: Offset)

  function Control(c: seq<Byte>): Triple
    requires |c| == 24
  {
    Triple(Offtin(c[..8]), Offtin(c[8..16]), Offtin(c[16..]))
  }

  function ControlBytes(t: Triple): (c: seq<Byte>)
    ensures |c| == 24
  {
    Offtout(t.x) + Offtout(t.y) + Offtout(t.z)
  }

  /** What bspatch can read out of the decompressed control block. */
  function Triples(c: seq<Byte>): seq<Triple> {
    if |c| < 24 then [] else [Control(c[..24])] + Triples(c[24..])
  }

  function Join(chunks: seq<seq<Byte>>): seq<Byte> {
    if chunks == [] then [] else chunks[0] + Join(chunks[1..])
  }

  function AllControlBytes(ts: seq<Triple>): seq<Byte>
  {
    Join(seq(|ts|, i requires 0 <= i < |ts| => ControlBytes(ts[i])))
  }

  lemma ControlRoundTrip(t: Triple)
    ensures Control(ControlBytes(t)) == t
  {
    var x, y, z := Offtout(t.x), Offtout(t.y), Offtout(t.z);
    OfftinOfOfftout(t.x);
    OfftinOfOfftout(t.y);
    OfftinOfOfftout(t.z);
    assert (x + y + z)[..8] == x && (x + y + z)[8..16] == y && (x + y + z)[16..] == z;
  }

  lemma TriplesOfNext(c: seq<Byte>, more: seq<Byte>, t: Triple)
    requires |c| == 24 && Control(c) == t
    ensures Triples(c + more) == [t] + Triples(more)
  {
    assert (c + more)[..24] == c && (c + more)[24..] == more;
  }

  lemma Assoc<T>(a: seq<T>, b: seq<T>, c: seq<T>)
    ensures a + b + c == a + (b + c)
  {
  }

  lemma {:induction false} TriplesOfJoin(chunks: seq<seq<Byte>>, ts: seq<Triple>, junk: seq<Byte>)
    requires |chunks| == |ts|
    requires forall i :: 0 <= i < |ts| ==> |chunks[i]| == 24 && Control(chunks[i]) == ts[i]
    ensures Triples(Join(chunks) + junk) == ts + Triples(junk)
  {
    if ts == [] {
      assert Join(chunks) + junk == junk;
    } else {
      TriplesOfJoin(chunks[1..], ts[1..], junk);
      TriplesOfNext(chunks[0], Join(chunks[1..]) + junk, ts[0]);
      Assoc(chunks[0], Join(chunks[1..]), junk);
      Assoc([ts[0]], ts[1..], Triples(junk));
      assert ts == [ts[0]] + ts[1..];
    }
  }

  /** The control block gives back the triples it was made from, whatever follows them. */
  lemma TriplesRoundTrip(ts: seq<Triple>, junk: seq<Byte>)
    ensures Triples(AllControlBytes(ts) + junk) == ts + Triples(junk)
  {
    var chunks := seq(|ts|, i requires 0 <= i < |ts| => ControlBytes(ts[i]));
    forall i | 0 <= i < |ts|
      ensures Control(chunks[i]) == ts[i]
    {
      ControlRoundTrip(ts[i]);
    }
    TriplesOfJoin(chunks, ts, junk);
  }

  // ---- The streams -----------------------------------------------------------------------

  /** What is still unread of the three decompressed streams. */
  datatype Streams = Streams(ctrl: seq<Triple>, diff: seq<Byte>, extra: seq<Byte>)

  /** The int that BZ2_bzRead gets for an off_t length. */
  function Cut(n: int): int {
    if -0x8000_0000 <= n < 0x8000_0000 then n
    else
      var m := n % 0x1_0000_0000;
      if m < 0x8000_0000 then m else m - 0x1_0000_0000
  }

  /** The off_t that the sum of two of them ends up as. */
  function Wrap64(n: int): int {
    if n >= 0x8000_0000_0000_0000 then n - 0x1_0000_0000_0000_0000
    else if n < -0x8000_0000_0000_0000 then n + 0x1_0000_0000_0000_0000
    else n
  }

  /** Whether a read of `n` bytes can deliver that many. */
  predicate CanRead(rest: seq<Byte>, n: int) {
    0 <= n < 0x8000_0000 && n <= |rest|
  }

  function OldByte(oldFile: seq<Byte>, pos: int): Byte {
    if 0 <= pos < |oldFile| then oldFile[pos] else 0
  }

  function AddOld(oldFile: seq<Byte>, pos: int, d: seq<Byte>): (r: seq<Byte>)
    ensures |r| == |d|
  {
    seq(|d|, i requires 0 <= i < |d| => (d[i] + OldByte(oldFile, pos + i)) % 256)
  }

  function SubOld(oldFile: seq<Byte>, pos: int, d: seq<Byte>): (r: seq<Byte>)
    ensures |r| == |d|
  {
    seq(|d|, i requires 0 <= i < |d| => (d[i] - OldByte(oldFile, pos + i)) % 256)
  }

  /** The old position after a triple. */
  function Seek(oldpos: int, t: Triple): int { Wrap64(Wrap64(oldpos + t.x) + t.z) }

  /** The file that the streams describe from `out` on, if they do. */
  function Assemble(oldFile: seq<Byte>, s: Streams, oldpos: int, out: seq<Byte>, newsize: nat)
    : Option<seq<Byte>>
    decreases |s.ctrl|
  {
    if |out| >= newsize then Some(out)
    else if s.ctrl == [] then None
    else
      var t := s.ctrl[0];
      if |out| + t.x > newsize || !CanRead(s.diff, t.x) then None
      else if |out| + t.x + t.y > newsize || !CanRead(s.extra, t.y) then None
      else
        Assemble(oldFile, Streams(s.ctrl[1..], s.diff[t.x..], s.extra[t.y..]), Seek(oldpos, t),
                 out + AddOld(oldFile, oldpos, s.diff[..t.x]) + s.extra[..t.y], newsize)
  }

  // ---- Making a patch --------------------------------------------------------------------

  /** A division of `n` bytes into parts the program can read back. */
  predicate Segmentation(segs: seq<Triple>, n: nat) {
    if segs == [] then n == 0
    else
      var t := segs[0];
      && 0 <= t.x < 0x8000_0000 && 0 <= t.y < 0x8000_0000
      && t.x + t.y <= n
      && Segmentation(segs[1..], n - t.x - t.y)
  }

  /** The diff and extra bytes that describe `newFile` along a segmentation. */
  function Encode(oldFile: seq<Byte>, newFile: seq<Byte>, segs: seq<Triple>, oldpos: int): Streams
    requires Segmentation(segs, |newFile|)
    decreases segs
  {
    if segs == [] then Streams([], [], [])
    else
      var t := segs[0];
      var more := Encode(oldFile, newFile[t.x + t.y..], segs[1..], Seek(oldpos, t));
      Streams(segs,
              SubOld(oldFile, oldpos, newFile[..t.x]) + more.diff,
              newFile[t.x..t.x + t.y] + more.extra)
  }

  function Append(s: Streams, u: Streams): Streams {
    Streams(s.ctrl + u.ctrl, s.diff + u.diff, s.extra + u.extra)
  }

  lemma AddSubByte(b: Byte, o: Byte)
    ensures ((b - o) % 256 + o) % 256 == b
  {
    if b >= o {
      assert (b - o) % 256 == b - o;
    } else {
      assert (b - o) % 256 == b - o + 256;
    }
  }

  lemma AddUndoesSub(oldFile: seq<Byte>, pos: int, d: seq<Byte>)
    ensures AddOld(oldFile, pos, SubOld(oldFile, pos, d)) == d
  {
    forall i | 0 <= i < |d|
      ensures AddOld(oldFile, pos, SubOld(oldFile, pos, d))[i] == d[i]
    {
      AddSubByte(d[i], OldByte(oldFile, pos + i));
    }
  }

  lemma CutParts<T>(a: seq<T>, more: seq<T>, junk: seq<T>)
    ensures (a + more + junk)[..|a|] == a
    ensures (a + more + junk)[|a|..] == more + junk
  {
  }

  /** The first part of an encoding, as bspatch reads it back. */
  lemma EncodedHead(oldFile: seq<Byte>, newFile: seq<Byte>, segs: seq<Triple>, oldpos: int,
                    junk: Streams)
    requires segs != [] && Segmentation(segs, |newFile|)
    ensures var t := segs[0];
            var s := Append(Encode(oldFile, newFile, segs, oldpos), junk);
            var more := Append(Encode(oldFile, newFile[t.x + t.y..], segs[1..],
                                      Seek(oldpos, t)), junk);
            && s.ctrl != [] && s.ctrl[0] == t
            && CanRead(s.diff, t.x) && s.diff[..t.x] == SubOld(oldFile, oldpos, newFile[..t.x])
            && CanRead(s.extra, t.y) && s.extra[..t.y] == newFile[t.x..t.x + t.y]
            && Streams(s.ctrl[1..], s.diff[t.x..], s.extra[t.y..]) == more
  {
    var t := segs[0];
    var s := Append(Encode(oldFile, newFile, segs, oldpos), junk);
    var more := Encode(oldFile, newFile[t.x + t.y..], segs[1..], Seek(oldpos, t));
    assert segs == [t] + segs[1..];
    assert more.ctrl == segs[1..];
    CutParts([t], more.ctrl, junk.ctrl);
    CutParts(SubOld(oldFile, oldpos, newFile[..t.x]), more.diff, junk.diff);
    CutParts(newFile[t.x..t.x + t.y], more.extra, junk.extra);
  }

  // ---- What a successful patch means -----------------------------------------------------

  /** The streams start with a description of `rest`, part by part. */
  predicate Describes(oldFile: seq<Byte>, s: Streams, oldpos: int, rest: seq<Byte>,
                      parts: nat)
    decreases parts
  {
    if parts == 0 then rest == []
    else
      && rest != [] && s.ctrl != []
      && var t := s.ctrl[0];
      && CanRead(s.diff, t.x) && CanRead(s.extra, t.y)
      && t.x + t.y <= |rest|
      && rest[..t.x] == AddOld(oldFile, oldpos, s.diff[..t.x])
      && rest[t.x..t.x + t.y] == s.extra[..t.y]
      && Describes(oldFile, Streams(s.ctrl[1..], s.diff[t.x..], s.extra[t.y..]),
                   Seek(oldpos, t), rest[t.x + t.y..], parts - 1)
  }

  /** The streams start with a description of a whole file. */
  ghost predicate PatchesTo(oldFile: seq<Byte>, s: Streams, oldpos: int, r: seq<Byte>) {
    exists parts :: Describes(oldFile, s, oldpos, r, parts)
  }

  lemma {:induction false} DescribedIsAssembled(oldFile: seq<Byte>, s: Streams, oldpos: int,
                                              out: seq<Byte>, rest: seq<Byte>, parts: nat)
    requires Describes(oldFile, s, oldpos, rest, parts)
    ensures Assemble(oldFile, s, oldpos, out, |out| + |rest|) == Some(out + rest)
    decreases parts
  {
    if parts == 0 {
      assert out + rest == out;
    } else {
      var t := s.ctrl[0];
      var out' := out + rest[..t.x] + rest[t.x..t.x + t.y];
      DescribedIsAssembled(oldFile, Streams(s.ctrl[1..], s.diff[t.x..], s.extra[t.y..]),
                         Seek(oldpos, t), out', rest[t.x + t.y..], parts - 1);
      assert out' + rest[t.x + t.y..] == out + rest;
    }
  }

  lemma CutPrefix(r: seq<Byte>, out: seq<Byte>, d: seq<Byte>, e: seq<Byte>)
    requires out + d + e <= r
    ensures out <= r
    ensures r[|out|..][..|d|] == d
    ensures r[|out|..][|d|..|d| + |e|] == e
    ensures r[|out|..][|d| + |e|..] == r[|out + d + e|..]
  {
    var tail := r[|out + d + e|..];
    assert r == out + d + e + tail;
    assert r[|out|..] == d + e + tail;
  }

  lemma DescribesNext(oldFile: seq<Byte>, s: Streams, oldpos: int, out: seq<Byte>, r: seq<Byte>,
                      more: nat)
    requires s.ctrl != []
    requires var t := s.ctrl[0];
             && CanRead(s.diff, t.x) && CanRead(s.extra, t.y)
             && var out' := out + AddOld(oldFile, oldpos, s.diff[..t.x]) + s.extra[..t.y];
             && out' <= r && |out| < |r|
             && Describes(oldFile, Streams(s.ctrl[1..], s.diff[t.x..], s.extra[t.y..]),
                          Seek(oldpos, t), r[|out'|..], more)
    ensures Describes(oldFile, s, oldpos, r[|out|..], more + 1)
  {
    var t := s.ctrl[0];
    var d, e := AddOld(oldFile, oldpos, s.diff[..t.x]), s.extra[..t.y];
    CutPrefix(r, out, d, e);
    assert r[|out|..][t.x + t.y..] == r[|out + d + e|..];
  }

  lemma {:induction false} AssembledIsDescribed(oldFile: seq<Byte>, s: Streams, oldpos: int,
                                              out: seq<Byte>, newsize: nat, r: seq<Byte>)
    returns (parts: nat)
    requires |out| <= newsize && Assemble(oldFile, s, oldpos, out, newsize) == Some(r)
    ensures |r| == newsize && out <= r
    ensures Describes(oldFile, s, oldpos, r[|out|..], parts)
    decreases |s.ctrl|
  {
    if |out| == newsize {
      parts := 0;
    } else {
      var t := s.ctrl[0];
      var d, e := AddOld(oldFile, oldpos, s.diff[..t.x]), s.extra[..t.y];
      var more := AssembledIsDescribed(oldFile, Streams(s.ctrl[1..], s.diff[t.x..], s.extra[t.y..]),
                                     Seek(oldpos, t), out + d + e, newsize, r);
      parts := more + 1;
      assert out <= out + d + e;
      DescribesNext(oldFile, s, oldpos, out, r, more);
    }
  }

  /** Assembling gives `r` exactly if the streams start with a description of `r`, and `r` has the
      promised size. */
  lemma AssembledIff(oldFile: seq<Byte>, s: Streams, oldpos: int, out: seq<Byte>, newsize: nat,
                     r: seq<Byte>)
    requires out == []
    ensures Assemble(oldFile, s, oldpos, out, newsize) == Some(r)
            <==> |r| == newsize && PatchesTo(oldFile, s, oldpos, r)
  {
    if |r| == newsize && PatchesTo(oldFile, s, oldpos, r) {
      var parts :| Describes(oldFile, s, oldpos, r, parts);
      AllDescribed(oldFile, s, oldpos, out, r, parts);
    }
    if Assemble(oldFile, s, oldpos, out, newsize) == Some(r) {
      AllAssembled(oldFile, s, oldpos, out, newsize, r);
    }
  }

  lemma AllDescribed(oldFile: seq<Byte>, s: Streams, oldpos: int, out: seq<Byte>, r: seq<Byte>,
                     parts: nat)
    requires Describes(oldFile, s, oldpos, r, parts) && out == []
    ensures Assemble(oldFile, s, oldpos, out, |r|) == Some(r)
  {
    DescribedIsAssembled(oldFile, s, oldpos, out, r, parts);
    assert out + r == r;
  }

  lemma AllAssembled(oldFile: seq<Byte>, s: Streams, oldpos: int, out: seq<Byte>, newsize: nat,
                     r: seq<Byte>)
    requires out == [] && Assemble(oldFile, s, oldpos, out, newsize) == Some(r)
    ensures |r| == newsize && PatchesTo(oldFile, s, oldpos, r)
  {
    var parts := AssembledIsDescribed(oldFile, s, oldpos, out, newsize, r);
    assert r[|out|..] == r;
  }

  lemma {:induction false} EncodingDescribes(oldFile: seq<Byte>, newFile: seq<Byte>,
                                             segs: seq<Triple>, oldpos: int, junk: Streams)
    returns (parts: nat)
    requires Segmentation(segs, |newFile|)
    ensures Describes(oldFile, Append(Encode(oldFile, newFile, segs, oldpos), junk), oldpos,
                      newFile, parts)
    decreases segs
  {
    if newFile == [] {
      parts := 0;
    } else {
      var t := segs[0];
      EncodedHead(oldFile, newFile, segs, oldpos, junk);
      AddUndoesSub(oldFile, oldpos, newFile[..t.x]);
      parts := EncodingDescribes(oldFile, newFile[t.x + t.y..], segs[1..], Seek(oldpos, t),
                                 junk);
      parts := parts + 1;
    }
  }
}
