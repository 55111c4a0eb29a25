/** The bytes of a patched file, one by one, as the comment in ext/bspatch/bspatch.c tells them: add
    bytes of the old file to bytes of the diff block, copy bytes of the extra block, and move on in
    the old file. */
module BsBytes {
  import opened BsFormat

  // ---- Where a part begins ---------------------------------------------------------------

  /** In the new file. */
  function NewAt(ts: seq<Triple>, j: nat): int
    requires j <= |ts|
  {
    if j == 0 then 0 else ts[0].x + ts[0].y + NewAt(ts[1..], j - 1)
  }

  /** In the diff block. */
  function DiffAt(ts: seq<Triple>, j: nat): int
    requires j <= |ts|
  {
    if j == 0 then 0 else ts[0].x + DiffAt(ts[1..], j - 1)
  }

  /** In the extra block. */
  function ExtraAt(ts: seq<Triple>, j: nat): int
    requires j <= |ts|
  {
    if j == 0 then 0 else ts[0].y + ExtraAt(ts[1..], j - 1)
  }

  /** In the old file, which may be before its beginning or behind its end. */
  function OldAt(ts: seq<Triple>, j: nat): int
    requires j <= |ts|
  {
    if j == 0 then 0 else ts[0].x + ts[0].z + OldAt(ts[1..], j - 1)
  }

  /** No place in the old file is out of the range of an off_t. */
  predicate NoOverflow(ts: seq<Triple>, oldpos: int, parts: nat)
    requires parts <= |ts|
  {
    parts == 0
    || (&& -TwoTo63() <= oldpos + ts[0].x < TwoTo63()
        && -TwoTo63() <= oldpos + ts[0].x + ts[0].z < TwoTo63()
        && NoOverflow(ts[1..], oldpos + ts[0].x + ts[0].z, parts - 1))
  }

  // ---- The bytes -------------------------------------------------------------------------

  /** The file has at `n` what the diff block has at `d` and the old file at `p`, added up; what is
      not in the old file counts as zero. */
  predicate IsSum(oldFile: seq<Byte>, diff: seq<Byte>, r: seq<Byte>, n: int, d: int, p: int) {
    && 0 <= n < |r| && 0 <= d < |diff|
    && r[n] as int == (diff[d] as int + if 0 <= p < |oldFile| then oldFile[p] as int else 0) % 256
  }

  predicate IsCopy(extra: seq<Byte>, r: seq<Byte>, n: int, e: int) {
    0 <= n < |r| && 0 <= e < |extra| && r[n] == extra[e]
  }

  lemma FirstSum(oldFile: seq<Byte>, s: Streams, oldpos: int, r: seq<Byte>, parts: nat, i: nat)
    requires parts > 0 && Describes(oldFile, s, oldpos, r, parts) && i < s.ctrl[0].x
    ensures IsSum(oldFile, s.diff, r, i, i, oldpos + i)
  {
    var x := s.ctrl[0].x;
    assert r[i] == r[..x][i] == AddOld(oldFile, oldpos, s.diff[..x])[i];
  }

  lemma FirstCopy(oldFile: seq<Byte>, s: Streams, oldpos: int, r: seq<Byte>, parts: nat, i: nat)
    requires parts > 0 && Describes(oldFile, s, oldpos, r, parts) && i < s.ctrl[0].y
    ensures IsCopy(s.extra, r, s.ctrl[0].x + i, i)
  {
    var (x, y) := (s.ctrl[0].x, s.ctrl[0].y);
    assert r[x + i] == r[x..x + y][i] == s.extra[..y][i];
  }

  /** Byte i of part j is such a sum. */
  predicate SumAt(oldFile: seq<Byte>, s: Streams, oldpos: int, r: seq<Byte>, j: nat, i: nat)
    requires j < |s.ctrl|
  {
    IsSum(oldFile, s.diff, r, NewAt(s.ctrl, j) + i, DiffAt(s.ctrl, j) + i,
          oldpos + OldAt(s.ctrl, j) + i)
  }

  /** Byte i behind the sums of part j is such a copy. */
  predicate CopyAt(s: Streams, r: seq<Byte>, j: nat, i: nat)
    requires j < |s.ctrl|
  {
    IsCopy(s.extra, r, NewAt(s.ctrl, j) + s.ctrl[j].x + i, ExtraAt(s.ctrl, j) + i)
  }

  /** What is left of the streams after their first part. */
  function Rest(s: Streams): Streams
    requires |s.ctrl| > 0 && 0 <= s.ctrl[0].x <= |s.diff| && 0 <= s.ctrl[0].y <= |s.extra|
  {
    Streams(s.ctrl[1..], s.diff[s.ctrl[0].x..], s.extra[s.ctrl[0].y..])
  }

  lemma SumBehind(oldFile: seq<Byte>, s: Streams, oldpos: int, r: seq<Byte>, j: nat, i: nat)
    requires 0 < j < |s.ctrl| && 0 <= s.ctrl[0].x <= |s.diff| && 0 <= s.ctrl[0].y <= |s.extra|
    requires s.ctrl[0].x + s.ctrl[0].y <= |r|
    requires var t := s.ctrl[0];
             SumAt(oldFile, Rest(s), oldpos + t.x + t.z, r[t.x + t.y..], j - 1, i)
    ensures SumAt(oldFile, s, oldpos, r, j, i)
  {
  }

  lemma CopyBehind(s: Streams, r: seq<Byte>, j: nat, i: nat)
    requires 0 < j < |s.ctrl| && 0 <= s.ctrl[0].x <= |s.diff| && 0 <= s.ctrl[0].y <= |s.extra|
    requires s.ctrl[0].x + s.ctrl[0].y <= |r|
    requires CopyAt(Rest(s), r[s.ctrl[0].x + s.ctrl[0].y..], j - 1, i)
    ensures CopyAt(s, r, j, i)
  {
  }

  /** As long as the places in the old file are numbers of 64 bits, the first bytes of each part are
      sums with the old file, from where the parts before have moved to. */
  lemma {:induction false} SumsAre(oldFile: seq<Byte>, s: Streams, oldpos: int, r: seq<Byte>,
                                   parts: nat, j: nat, i: nat)
    requires Describes(oldFile, s, oldpos, r, parts) && j < parts <= |s.ctrl|
    requires NoOverflow(s.ctrl, oldpos, parts) && i < s.ctrl[j].x
    ensures SumAt(oldFile, s, oldpos, r, j, i)
    decreases parts
  {
    if j == 0 {
      FirstSum(oldFile, s, oldpos, r, parts, i);
    } else {
      var t := s.ctrl[0];
      SumsAre(oldFile, Rest(s), oldpos + t.x + t.z, r[t.x + t.y..], parts - 1, j - 1, i);
      SumBehind(oldFile, s, oldpos, r, j, i);
    }
  }

  /** And behind those come the bytes of the extra block. */
  lemma {:induction false} CopiesAre(oldFile: seq<Byte>, s: Streams, oldpos: int, r: seq<Byte>,
                                     parts: nat, j: nat, i: nat)
    requires Describes(oldFile, s, oldpos, r, parts) && j < parts <= |s.ctrl|
    requires i < s.ctrl[j].y
    ensures CopyAt(s, r, j, i)
    decreases parts
  {
    if j == 0 {
      FirstCopy(oldFile, s, oldpos, r, parts, i);
    } else {
      var t := s.ctrl[0];
      CopiesAre(oldFile, Rest(s), Seek(oldpos, t), r[t.x + t.y..], parts - 1, j - 1, i);
      CopyBehind(s, r, j, i);
    }
  }

  lemma {:induction false} PartsMakeAll(oldFile: seq<Byte>, s: Streams, oldpos: int, r: seq<Byte>,
                                        parts: nat)
    requires Describes(oldFile, s, oldpos, r, parts)
    ensures parts <= |s.ctrl| && NewAt(s.ctrl, parts) == |r|
    decreases parts
  {
    if parts > 0 {
      var t := s.ctrl[0];
      PartsMakeAll(oldFile, Rest(s), Seek(oldpos, t), r[t.x + t.y..], parts - 1);
    }
  }

  /** What it means that streams describe a file: its parts follow one another and make up all of
      it, each of them sums with the old file from where the parts before have moved to, and then
      copies. */
  lemma DescribedBytes(oldFile: seq<Byte>, s: Streams, oldpos: int, r: seq<Byte>)
    returns (parts: nat)
    requires PatchesTo(oldFile, s, oldpos, r)
    ensures parts <= |s.ctrl| && NewAt(s.ctrl, parts) == |r|
    ensures NoOverflow(s.ctrl, oldpos, parts) ==>
              forall j, i :: 0 <= j < parts && 0 <= i < s.ctrl[j].x ==>
                SumAt(oldFile, s, oldpos, r, j, i)
    ensures forall j, i :: 0 <= j < parts && 0 <= i < s.ctrl[j].y ==> CopyAt(s, r, j, i)
  {
    parts :| Describes(oldFile, s, oldpos, r, parts);
    PartsMakeAll(oldFile, s, oldpos, r, parts);
    if NoOverflow(s.ctrl, oldpos, parts) {
      forall j, i | 0 <= j < parts && 0 <= i < s.ctrl[j].x
        ensures SumAt(oldFile, s, oldpos, r, j, i)
      {
        SumsAre(oldFile, s, oldpos, r, parts, j, i);
      }
    }
    forall j, i | 0 <= j < parts && 0 <= i < s.ctrl[j].y
      ensures CopyAt(s, r, j, i)
    {
      CopiesAre(oldFile, s, oldpos, r, parts, j, i);
    }
  }
}
