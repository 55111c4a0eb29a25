/** bspatch as ext/bspatch/bspatch.c writes it: blocks that are read piece by piece, and a buffer
    that is filled in place. */
module BsProgram {
  import opened Common
  import opened BsFormat
  import opened BsApply
  import opened BsFile

  method ReadOfft(buf: seq<Byte>) returns (y: Offset)
    requires |buf| == 8
    ensures y == Offtin(buf)
  {
    ghost var bs: seq<Byte> := buf[..7] + [buf[7] % 128];
    var sum: int := buf[7] % 128;
    assert bs[7..] == [bs[7]];
    for i := 7 downto 0
      invariant sum == Le(bs[i..])
    {
      sum := sum * 256 + buf[i];
      assert bs[i..] == [bs[i]] + bs[i + 1..];
    }
    assert bs[0..] == bs;
    SignAndMagnitude(buf);
    y := if buf[7] >= 128 then -sum else sum;
  }

  // ---- The blocks ------------------------------------------------------------------------

  datatype BzError = BzOk | BzStreamEnd | BzBad

  /** A bzip2 stream over one block of the patch. */
  class BzFile {
    var rest: seq<Byte>
    var whole: bool

    ghost function Value(): Block
      reads this
    {
      Block(rest, whole)
    }

    constructor (data: Block)
      ensures Value() == data
    {
      rest, whole := data.rest, data.whole;
    }

    /** BZ2_bzRead of `n` bytes to dst + at.  It stops at the first byte that would go to a place
        outside of `dst`. */
    method Read(dst: array<Byte>, at: int, n: int) returns (lenread: int, err: BzError, out: bool)
      modifies this, dst
      ensures n < 0 ==> !out && lenread == 0 && err == BzBad
      ensures n >= 0 ==>
                var bytes := Delivered(old(Value()), n);
                && out == Outside(dst.Length, at, |bytes|)
                && (!out ==>
                      && lenread == |bytes| && (err != BzBad <==> EndsWell(old(Value()), n))
                      && Value() == Afterwards(old(Value()), n)
                      && dst[..] == Put(old(dst[..]), at, bytes))
    {
      if n < 0 {
        return 0, BzBad, false;
      }
      var i := 0;
      while i < n && i < |rest|
        invariant 0 <= i <= n && i <= |rest|
        invariant i > 0 ==> 0 <= at && at + i <= dst.Length
        invariant Value() == old(Value())
        invariant dst[..] == Put(old(dst[..]), at, rest[..i])
      {
        if at + i < 0 || at + i >= dst.Length {
          return i, BzBad, true;
        }
        ghost var was := dst[..];
        dst[at + i] := rest[i];
        PutNext(old(dst[..]), at, rest, i);
        assert dst[..] == was[at + i := rest[i]];
        i := i + 1;
      }
      assert rest[..i] == Delivered(Value(), n);
      lenread, out := i, false;
      err := if i == n then BzOk else if whole then BzStreamEnd else BzBad;
      whole := whole && i == n;
      rest := rest[i..];
    }
  }

  lemma PutNext(buf: seq<Byte>, at: int, bytes: seq<Byte>, i: nat)
    requires i < |bytes| && 0 <= at && at + i < |buf|
    ensures Put(buf, at, bytes[..i + 1]) == Put(buf, at, bytes[..i])[at + i := bytes[i]]
  {
    assert bytes[..i + 1] == bytes[..i] + [bytes[i]];
  }

  /** How a step of bspatch comes out: it goes on, it returns NULL, it has reached a place outside
      of the buffer, or it would read a block that is not within the patch. */
  datatype Exit = Onward | Fails | Strays | Unread

  /** One of the three control words. */
  method ReadWord(cpf: BzFile) returns (ok: bool, y: Offset)
    modifies cpf
    ensures ok <==> |old(cpf.rest)| >= 8
    ensures ok ==> cpf.rest == old(cpf.rest)[8..] && y == Offtin(old(cpf.rest)[..8])
  {
    var buf := new Byte[8];
    var lenread, err, out := cpf.Read(buf, 0, 8);
    if lenread < 8 || err == BzBad {
      return false, 0;
    }
    assert buf[..] == old(cpf.rest)[..8];
    y := ReadOfft(buf[..]);
    ok := true;
  }

  /** The control file: BZ2_bzRead of three times eight bytes. */
  method ReadControl(cpf: BzFile) returns (ok: bool, t: Triple)
    modifies cpf
    ensures ok <==> Triples(old(cpf.rest)) != []
    ensures ok ==> Triples(old(cpf.rest)) == [t] + Triples(cpf.rest)
    ensures ok ==> |cpf.rest| < |old(cpf.rest)|
  {
    var ctrl: seq<Offset> := [];
    ghost var c := cpf.rest;
    for i := 0 to 3
      invariant |ctrl| == i && |c| >= 8 * i && cpf.rest == c[8 * i..]
      invariant forall k :: 0 <= k < i ==> ctrl[k] == Offtin(c[8 * k..8 * k + 8])
    {
      var got, y := ReadWord(cpf);
      if !got {
        return false, Triple(0, 0, 0);
      }
      assert c[8 * i..][..8] == c[8 * i..8 * i + 8];
      ctrl := ctrl + [y];
    }
    ok, t := true, Triple(ctrl[0], ctrl[1], ctrl[2]);
    assert c[..24][..8] == c[8 * 0..8 * 0 + 8];
    assert c[..24][8..16] == c[8 * 1..8 * 1 + 8];
    assert c[..24][16..] == c[8 * 2..8 * 2 + 8];
    assert Control(c[..24]) == t;
  }

  // ---- The loop --------------------------------------------------------------------------

  /** The test of the new position, the read to new + newpos, and the test of its result. */
  method ReadPart(f: BzFile, dst: array<Byte>, newpos: int, n: int) returns (r: Exit)
    requires dst.Length > 0
    modifies f, dst
    ensures match ReadAt(old(f.Value()), old(dst[..]), newpos, n)
            case Refused => r == Fails
            case Beyond => r == Strays
            case Through(buf, left) => r == Onward && dst[..] == buf && f.Value() == left
  {
    var newsize := dst.Length - 1;
    if Wrap64(newpos + n) > newsize {
      return Fails;
    }
    var lenread, err, out := f.Read(dst, newpos, Cut(n));
    r := if out then Strays else if lenread < n || err == BzBad then Fails else Onward;
  }

  /** The loop that adds old bytes to the diff bytes already at new + newpos. */
  method AddOldBytes(oldFile: array<Byte>, oldpos: int, dst: array<Byte>, newpos: int, x: int)
    requires oldFile != dst && (x > 0 ==> 0 <= newpos && newpos + x <= dst.Length)
    modifies dst
    ensures dst[..] == AddAt(oldFile[..], oldpos, old(dst[..]), newpos, x)
  {
    ghost var buf := dst[..];
    var i := 0;
    while i < x
      invariant 0 <= i && (if x > 0 then i <= x else i == 0)
      invariant forall k :: 0 <= k < dst.Length ==>
                  dst[k] == if newpos <= k < newpos + i
                            then (buf[k] + OldByte(oldFile[..], oldpos + k - newpos)) % 256
                            else buf[k]
    {
      if 0 <= oldpos + i < oldFile.Length {
        var sum: int := dst[newpos + i] as int + oldFile[oldpos + i] as int;
        dst[newpos + i] := sum % 256;
      }
      i := i + 1;
    }
    AddAtIs(oldFile[..], oldpos, buf, newpos, x, dst[..]);
  }

  lemma AddAtIs(oldFile: seq<Byte>, oldpos: int, buf: seq<Byte>, pos: int, n: int, r: seq<Byte>)
    requires n > 0 ==> 0 <= pos && pos + n <= |buf|
    requires |r| == |buf|
    requires forall k :: 0 <= k < |buf| ==>
               r[k] == if pos <= k < pos + n
                       then (buf[k] + OldByte(oldFile, oldpos + k - pos)) % 256 else buf[k]
    ensures r == AddAt(oldFile, oldpos, buf, pos, n)
  {
    if n > 0 {
      var added := AddOld(oldFile, oldpos, buf[pos..pos + n]);
      assert r[pos..pos + n] == added;
      assert r[..pos] == buf[..pos] && r[pos + n..] == buf[pos + n..];
    }
  }

  /** How a round has come out. */
  predicate Means(r: Exit, s: Input, buf: seq<Byte>, pos: int, turn: Turn) {
    match turn
    case Ends(end) => r == if end == Astray then Strays else Fails
    case Goes(s', buf', pos') => r == Onward && s == s' && buf == buf' && pos == pos'
  }

  /** What bspatch does for one triple, the first of `ctrl`. */
  method OnePart(oldFile: array<Byte>, dpf: BzFile, epf: BzFile, dst: array<Byte>, oldpos: int,
                 newpos: int, t: Triple, ghost ctrl: seq<Triple>) returns (r: Exit, next: int)
    requires dpf != epf && oldFile != dst && dst.Length > 0 && |ctrl| > 0 && t == ctrl[0]
    modifies dpf, epf, dst
    ensures Means(r, Input(ctrl[1..], dpf.Value(), epf.Value()), dst[..], next,
                  Round(oldFile[..], Input(ctrl, old(dpf.Value()), old(epf.Value())), oldpos,
                        old(dst[..]), newpos))
  {
    next := newpos;
    ghost var s, buf := Input(ctrl, dpf.Value(), epf.Value()), dst[..];
    r := ReadPart(dpf, dst, newpos, t.x);
    if r == Onward {
      ghost var r1 := ReadAt(s.diff, buf, newpos, t.x);
      AddOldBytes(oldFile, oldpos, dst, newpos, t.x);
      next := Wrap64(newpos + t.x);
      ghost var buf2, r2 := dst[..], ReadAt(s.extra, dst[..], next, t.y);
      RoundGoes(oldFile[..], s, oldpos, buf, newpos, r1, buf2, next, r2);
      r := ReadPart(epf, dst, next, t.y);
      next := Wrap64(next + t.y);
    }
  }

  function Ending(end: Exit, buf: seq<Byte>): Outcome {
    match end
    case Onward => Done(buf)
    case Fails => Failed
    case Strays => Astray
    case Unread => Unbounded
  }

  lemma LoopMeans(oldFile: seq<Byte>, s: Input, oldpos: int, buf: seq<Byte>, pos: int, r: Exit,
                  s': Input, buf': seq<Byte>, pos': int)
    requires |buf| == |buf'| && pos < |buf| - 1 && |buf| > 0 && |s.ctrl| > 0
    requires Means(r, s', buf', pos', Round(oldFile, s, oldpos, buf, pos))
    ensures EndOf(oldFile, s, oldpos, buf, pos)
            == if r == Onward then EndOf(oldFile, s', Seek(oldpos, s.ctrl[0]), buf', pos')
               else Ending(r, buf')
  {
    LoopGoes(oldFile, s, oldpos, buf, pos, Round(oldFile, s, oldpos, buf, pos));
  }

  /** A round of the loop, for a triple that has been read. */
  method OneRound(oldFile: array<Byte>, dpf: BzFile, epf: BzFile, dst: array<Byte>, oldpos: int,
                  newpos: int, t: Triple, ghost ctrl: seq<Triple>)
    returns (r: Exit, oldpos': int, newpos': int)
    requires dpf != epf && oldFile != dst && |ctrl| > 0 && t == ctrl[0]
    requires newpos < dst.Length - 1 && dst.Length > 0
    modifies dpf, epf, dst
    ensures EndOf(oldFile[..], Input(ctrl, old(dpf.Value()), old(epf.Value())), oldpos,
                  old(dst[..]), newpos)
            == if r == Onward
               then EndOf(oldFile[..], Input(ctrl[1..], dpf.Value(), epf.Value()), oldpos',
                          dst[..], newpos')
               else Ending(r, dst[..])
  {
    ghost var s, buf := Input(ctrl, dpf.Value(), epf.Value()), dst[..];
    r, newpos' := OnePart(oldFile, dpf, epf, dst, oldpos, newpos, t, ctrl);
    oldpos' := Wrap64(Wrap64(oldpos + t.x) + t.z);
    LoopMeans(oldFile[..], s, oldpos, buf, newpos, r,
              Input(ctrl[1..], dpf.Value(), epf.Value()), dst[..], newpos');
  }

  /** The loop of bspatch. */
  method ApplyLoop(oldFile: array<Byte>, cpf: BzFile, dpf: BzFile, epf: BzFile, dst: array<Byte>)
    returns (end: Exit)
    requires cpf != dpf && cpf != epf && dpf != epf && oldFile != dst && dst.Length > 0
    modifies cpf, dpf, epf, dst
    ensures Apply(oldFile[..], old(Input(Triples(cpf.rest), dpf.Value(), epf.Value())), 0,
                  old(dst[..]), 0)
            == Ending(end, dst[..])
  {
    ghost var ctrl := Triples(cpf.rest);
    ghost var want := EndOf(oldFile[..], Input(ctrl, dpf.Value(), epf.Value()), 0, dst[..], 0);
    var newsize, oldpos, newpos := dst.Length - 1, 0, 0;
    while newpos < newsize
      invariant ctrl == Triples(cpf.rest)
      invariant want == EndOf(oldFile[..], Input(ctrl, dpf.Value(), epf.Value()), oldpos, dst[..],
                              newpos)
      decreases |cpf.rest|
    {
      var got, t := ReadControl(cpf);
      if !got {
        return Fails;
      }
      end, oldpos, newpos := OneRound(oldFile, dpf, epf, dst, oldpos, newpos, t, ctrl);
      if end != Onward {
        return;
      }
      ctrl := ctrl[1..];
    }
    end := Onward;
  }

  // ---- The whole program -----------------------------------------------------------------

  method ReadHeaderOf(patch: array<Byte>) returns (h: Header)
    requires patch.Length >= 32
    ensures h == ReadHeader(patch[8..32])
  {
    assert patch[8..32][..8] == patch[8..16];
    assert patch[8..32][8..16] == patch[16..24];
    assert patch[8..32][16..] == patch[24..32];
    var ctrlLen := ReadOfft(patch[8..16]);
    var dataLen := ReadOfft(patch[16..24]);
    var newSize := ReadOfft(patch[24..32]);
    h := Header(ctrlLen, dataLen, newSize);
  }

  method TestHeader(patch: array<Byte>) returns (ok: bool, h: Header)
    ensures ok <==> !HeaderTest(patch[..]).Rejected?
    ensures ok ==> h == ReadHeader(patch[..][8..32])
  {
    ok, h := false, Header(0, 0, 0);
    if patch.Length < 32 {
      return;
    }
    assert patch[..][..8] == patch[..8];
    if patch[..8] != Magic() {
      return;
    }
    assert patch[..][8..32] == patch[8..32];
    h := ReadHeaderOf(patch);
    if h.ctrlLen < 0 || h.dataLen < 0 || h.newSize < 0 {
      return;
    }
    ok := Wrap64(Wrap64(h.ctrlLen + h.dataLen) + 32) <= patch.Length;
  }

  method Allot(newsize: nat, junk: nat -> Byte) returns (dst: array<Byte>)
    ensures fresh(dst) && dst[..] == Allotted(newsize, junk)
  {
    dst := new Byte[newsize + 1](i requires i >= 0 => junk(i));
    dst[newsize] := 0;
  }

  /** The loop over three blocks, with a new buffer. */
  method ApplyBlocks(oldFile: array<Byte>, z: Unzipped, newsize: nat, junk: nat -> Byte)
    returns (end: Exit, dst: array<Byte>)
    ensures Run(oldFile[..], z, Allotted(newsize, junk)) == Ending(end, dst[..])
  {
    var cpf := new BzFile(z.ctrl);
    var dpf := new BzFile(z.diff);
    var epf := new BzFile(z.extra);
    dst := Allot(newsize, junk);
    end := ApplyLoop(oldFile, cpf, dpf, epf, dst);
  }

  /** The three blocks, each with what bzip2 reads out of it. */
  method ApplyBody(oldFile: array<Byte>, patch: array<Byte>, h: Header,
                   unzip: seq<Byte> -> Block, junk: nat -> Byte)
    returns (end: Exit, dst: array<Byte>)
    requires h.ctrlLen >= 0 && h.dataLen >= 0 && h.newSize >= 0 && Sum(h) <= patch.Length
    ensures Body(oldFile[..], patch[..], h, unzip, junk) == Ending(end, dst[..])
  {
    var z := UnzippedFrom(patch[..], h, unzip);
    end, dst := ApplyBlocks(oldFile, z, h.newSize, junk);
  }

  /** bspatch, with the buffer that becomes the new file.  Blocks that are not within the patch are
      opened, and the model ends where the first of them is read. */
  method BsPatch(oldFile: array<Byte>, patch: array<Byte>, unzip: seq<Byte> -> Block,
                 junk: nat -> Byte) returns (end: Exit, dst: array<Byte>)
    ensures Patched(oldFile[..], patch[..], unzip, junk) == Ending(end, dst[..])
  {
    var ok, h := TestHeader(patch);
    dst := new Byte[0];
    if !ok {
      end := Fails;
    } else if Sum(h) <= patch.Length {
      end, dst := ApplyBody(oldFile, patch, h, unzip, junk);
    } else {
      dst := Allot(h.newSize, junk);
      end := if h.newSize == 0 then Onward else Unread;
    }
  }
}
