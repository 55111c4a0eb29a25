/** The patch file around the loop of ext/bspatch/bspatch.c: a header of four words, and the
    control, diff and extra blocks, each of them zipped. */
module BsFile {
  import opened Common
  import opened BsFormat
  import opened BsApply

  /** Along any segmentation, and whatever follows it in the streams, the loop rebuilds exactly the
      new file. */
  lemma PatchRebuilds(oldFile: seq<Byte>, newFile: seq<Byte>, segs: seq<Triple>, junk: Streams,
                      s: Input, oldpos: int, buf: seq<Byte>, pos: nat)
    requires Segmentation(segs, |newFile|) && |newFile| + 1 == |buf| < TwoTo63()
    requires Contents(s) == Append(Encode(oldFile, newFile, segs, oldpos), junk) && pos == 0
    ensures Honest(s.ctrl, pos, |newFile|)
    ensures Apply(oldFile, s, oldpos, buf, pos) == Done(newFile + Last(buf))
  {
    var parts := EncodingDescribes(oldFile, newFile, segs, oldpos, junk);
    PatchSucceedsIff(oldFile, s, oldpos, buf, pos, newFile);
  }

  // ---- The header ------------------------------------------------------------------------

  function Magic(): seq<Byte> { [66, 83, 68, 73, 70, 70, 52, 48] }  // "BSDIFF40"

  datatype Header = Header(ctrlLen: Offset, dataLen: Offset, newSize: Offset)

  function ReadHeader(h: seq<Byte>): Header
    requires |h| == 24
  {
    var t := Control(h);
    Header(t.x, t.y, t.z)
  }

  function Sum(h: Header): int { h.ctrlLen + h.dataLen + 32 }

  function WrappedSum(h: Header): int { Wrap64(Wrap64(h.ctrlLen + h.dataLen) + 32) }

  /** What the tests of the header make of a patch: its blocks are within it, it is refused, or it
      passes although its blocks end outside of it. */
  datatype Verdict = Accepted | Rejected | Oversized

  function HeaderTest(patch: seq<Byte>): (r: Verdict)
    ensures !r.Rejected? ==> |patch| >= 32 && ReadHeader(patch[8..32]).newSize >= 0
  {
    if |patch| < 32 || patch[..8] != Magic() then Rejected
    else
      var h := ReadHeader(patch[8..32]);
      if h.ctrlLen < 0 || h.dataLen < 0 || h.newSize < 0 || WrappedSum(h) > |patch| then Rejected
      else if Sum(h) > |patch| then Oversized
      else Accepted
  }

  /** The test of the header lets blocks through that end outside of the patch exactly where the
      sum of their lengths is no off_t. */
  lemma HeaderTestIff(patch: seq<Byte>, h: Header)
    requires h.ctrlLen >= 0 && h.dataLen >= 0 && 32 <= |patch| < 0x8000_0000
    ensures WrappedSum(h) <= |patch| < Sum(h) <==> Sum(h) >= TwoTo63()
  {
  }

  // ---- The whole patch -------------------------------------------------------------------

  /** The new buffer as malloc gives it, with a zero behind the file. */
  function Allotted(newsize: nat, junk: nat -> Byte): (buf: seq<Byte>)
    ensures |buf| == newsize + 1 && Last(buf) == [0]
  {
    seq<Byte>(newsize, i requires i >= 0 => junk(i)) + [0]
  }

  /** What bzip2 reads out of the three blocks. */
  datatype Unzipped = Unzipped(ctrl: Block, diff: Block, extra: Block)

  function UnzippedFrom(patch: seq<Byte>, h: Header, unzip: seq<Byte> -> Block): Unzipped
    requires h.ctrlLen >= 0 && h.dataLen >= 0 && Sum(h) <= |patch|
  {
    var c, d := h.ctrlLen, h.dataLen;
    Unzipped(unzip(patch[32..32 + c]), unzip(patch[32 + c..32 + c + d]),
             unzip(patch[32 + c + d..]))
  }

  /** The loop over the three blocks. */
  function Run(oldFile: seq<Byte>, z: Unzipped, buf: seq<Byte>): Outcome
    requires |buf| > 0
  {
    Apply(oldFile, Input(Triples(z.ctrl.rest), z.diff, z.extra), 0, buf, 0)
  }

  /** The patch once its header has been read and checked. */
  function Body(oldFile: seq<Byte>, patch: seq<Byte>, h: Header, unzip: seq<Byte> -> Block,
                junk: nat -> Byte): Outcome
    requires h.ctrlLen >= 0 && h.dataLen >= 0 && h.newSize >= 0 && Sum(h) <= |patch|
  {
    Run(oldFile, UnzippedFrom(patch, h, unzip), Allotted(h.newSize, junk))
  }

  /** bspatch; `unzip` stands for what bzip2 reads out of a block, `junk` for what malloc leaves in
      the buffer.  With nothing to make, the blocks are not read. */
  function Patched(oldFile: seq<Byte>, patch: seq<Byte>, unzip: seq<Byte> -> Block,
                   junk: nat -> Byte): Outcome
  {
    match HeaderTest(patch)
    case Rejected => Failed
    case Accepted => Body(oldFile, patch, ReadHeader(patch[8..32]), unzip, junk)
    case Oversized =>
      if ReadHeader(patch[8..32]).newSize == 0 then Done(Allotted(0, junk)) else Unbounded
  }

  /** The magic, and three lengths that are not negative. */
  predicate Introduced(patch: seq<Byte>) {
    && |patch| >= 32 && patch[..8] == [66, 83, 68, 73, 70, 70, 52, 48]
    && Offtin(patch[8..16]) >= 0 && Offtin(patch[16..24]) >= 0 && Offtin(patch[24..32]) >= 0
  }

  /** How far the three blocks reach, the last of them taken as empty. */
  function Reach(patch: seq<Byte>): int
    requires Introduced(patch)
  {
    Offtin(patch[8..16]) + Offtin(patch[16..24]) + 32
  }

  lemma HeaderWords(patch: seq<Byte>)
    requires |patch| >= 32
    ensures ReadHeader(patch[8..32])
            == Header(Offtin(patch[8..16]), Offtin(patch[16..24]), Offtin(patch[24..32]))
  {
    var h := patch[8..32];
    SliceOfSlice(patch, 8, 32, 0, 8);
    SliceOfSlice(patch, 8, 32, 8, 8);
    SliceOfSlice(patch, 8, 32, 16, 8);
    assert h[16..24] == h[16..];
  }

  /** How a patch starts decides where it goes: one that is not introduced right, or whose blocks
      do not fit, fails, unless the sum of their lengths is no off_t; one for an empty file gives
      that; any other one goes on to the loop over its three blocks, if they are within it. */
  lemma PatchStarts(oldFile: seq<Byte>, patch: seq<Byte>, unzip: seq<Byte> -> Block,
                    junk: nat -> Byte)
    requires |patch| < 0x8000_0000
    ensures var end := Patched(oldFile, patch, unzip, junk);
            if !Introduced(patch) || |patch| < Reach(patch) < TwoTo63() then end == Failed
            else
              var (x, y, n) := (Offtin(patch[8..16]), Offtin(patch[16..24]),
                                Offtin(patch[24..32]));
              if n == 0 then end == Done([0])
              else if Reach(patch) >= TwoTo63() then end == Unbounded
              else
                end == Run(oldFile,
                           Unzipped(unzip(patch[32..32 + x]), unzip(patch[32 + x..32 + x + y]),
                                    unzip(patch[32 + x + y..])),
                           Allotted(n, junk))
  {
    if |patch| >= 32 {
      HeaderWords(patch);
      if Introduced(patch) { HeaderTestIff(patch, ReadHeader(patch[8..32])); }
    }
  }

  // ---- Making a patch file ---------------------------------------------------------------

  /** The three zipped blocks a diff tool writes for a segmentation. */
  function Blocks(oldFile: seq<Byte>, newFile: seq<Byte>, segs: seq<Triple>,
                  zip: seq<Byte> -> seq<Byte>): (seq<Byte>, seq<Byte>, seq<Byte>)
    requires Segmentation(segs, |newFile|)
  {
    var s := Encode(oldFile, newFile, segs, 0);
    (zip(AllControlBytes(segs)), zip(s.diff), zip(s.extra))
  }

  lemma LayoutRoundTrip(h: seq<Byte>, c: seq<Byte>, d: seq<Byte>, e: seq<Byte>)
    requires |h| == 24
    ensures var p := Magic() + h + c + d + e;
            && |p| == 32 + |c| + |d| + |e|
            && p[..8] == Magic() && p[8..32] == h
            && p[32..32 + |c|] == c && p[32 + |c|..32 + |c| + |d|] == d
            && p[32 + |c| + |d|..] == e
  {
  }

  lemma WholePatch(oldFile: seq<Byte>, h: seq<Byte>, c: seq<Byte>, d: seq<Byte>, e: seq<Byte>,
                   newsize: nat, unzip: seq<Byte> -> Block, junk: nat -> Byte)
    requires newsize < TwoTo63() && |c| + |d| + 32 < TwoTo63()
    requires |h| == 24 && Control(h) == Triple(|c|, |d|, newsize)
    ensures Patched(oldFile, Magic() + h + c + d + e, unzip, junk)
            == Run(oldFile, Unzipped(unzip(c), unzip(d), unzip(e)), Allotted(newsize, junk))
  {
    LayoutRoundTrip(h, c, d, e);
  }

  lemma BlocksUnzip(oldFile: seq<Byte>, newFile: seq<Byte>, segs: seq<Triple>,
                    zip: seq<Byte> -> seq<Byte>, unzip: seq<Byte> -> Block)
    requires Segmentation(segs, |newFile|)
    requires forall b :: unzip(zip(b)).rest == b
    ensures var (c, d, e) := Blocks(oldFile, newFile, segs, zip);
            Contents(Input(Triples(unzip(c).rest), unzip(d), unzip(e)))
            == Encode(oldFile, newFile, segs, 0)
  {
    TriplesRoundTrip(segs, []);
    var bytes := AllControlBytes(segs);
    assert bytes + [] == bytes;
    assert segs + [] == segs;
  }

  /** A patch file made from any segmentation, with a header that states its sizes, gives back the
      new file. */
  lemma PatchFileRoundTrip(oldFile: seq<Byte>, newFile: seq<Byte>, segs: seq<Triple>,
                           header: seq<Byte>, zip: seq<Byte> -> seq<Byte>,
                           unzip: seq<Byte> -> Block, junk: nat -> Byte)
    requires Segmentation(segs, |newFile|) && |newFile| + 1 < TwoTo63()
    requires forall b :: unzip(zip(b)).rest == b
    requires var (c, d, e) := Blocks(oldFile, newFile, segs, zip);
             && 32 + |c| + |d| + |e| < 0x8000_0000
             && |header| == 24 && Control(header) == Triple(|c|, |d|, |newFile|)
    ensures var (c, d, e) := Blocks(oldFile, newFile, segs, zip);
            Patched(oldFile, Magic() + header + c + d + e, unzip, junk) == Done(newFile + [0])
  {
    var (c, d, e) := Blocks(oldFile, newFile, segs, zip);
    WholePatch(oldFile, header, c, d, e, |newFile|, unzip, junk);
    BlocksUnzip(oldFile, newFile, segs, zip, unzip);
    BlocksRebuild(oldFile, newFile, segs, Input(Triples(unzip(c).rest), unzip(d), unzip(e)), 0,
                  Allotted(|newFile|, junk), 0);
  }

  lemma BlocksRebuild(oldFile: seq<Byte>, newFile: seq<Byte>, segs: seq<Triple>, s: Input,
                      oldpos: int, buf: seq<Byte>, pos: nat)
    requires Segmentation(segs, |newFile|) && |newFile| + 1 == |buf| < TwoTo63()
    requires Contents(s) == Encode(oldFile, newFile, segs, oldpos) && pos == 0
    ensures Apply(oldFile, s, oldpos, buf, pos) == Done(newFile + Last(buf))
  {
    var none := Streams([], [], []);
    assert Append(Contents(s), none) == Contents(s);
    PatchRebuilds(oldFile, newFile, segs, none, s, oldpos, buf, pos);
  }
}
