/** The loop of ext/bspatch/bspatch.c, with the widths its integers have: a length is cut to an int
    where BZ2_bzRead takes it, and positions are sums of 64 bits.  A length may lose its sign on the
    way, and then the loop goes on at a position before the new buffer. */
module BsApply {
  import opened Common
  import opened BsFormat

  // ---- Reading ---------------------------------------------------------------------------

  /** A block of the patch as bzip2 reads it: the bytes that are still to come, and whether the
      block ends well after them and its end has not been reported yet. */
  datatype Block = Block(rest: seq<Byte>, whole: bool)

  /** What BZ2_bzRead delivers when it is asked for `k` bytes. */
  function Delivered(b: Block, k: nat): (r: seq<Byte>)
    ensures |r| <= k && |r| <= |b.rest|
  {
    if k <= |b.rest| then b.rest[..k] else b.rest
  }

  function Afterwards(b: Block, k: nat): Block {
    if k <= |b.rest| then Block(b.rest[k..], b.whole) else Block([], false)
  }

  /** BZ2_bzRead does not report an error, the end of a stream being none. */
  predicate EndsWell(b: Block, k: nat) { k <= |b.rest| || b.whole }

  /** Some of the bytes would go to a place outside of the buffer. */
  predicate Outside(size: nat, pos: int, n: nat) { n > 0 && (pos < 0 || pos + n > size) }

  function Put(buf: seq<Byte>, pos: int, bytes: seq<Byte>): (r: seq<Byte>)
    requires !Outside(|buf|, pos, |bytes|)
    ensures |r| == |buf|
  {
    if |bytes| == 0 then buf else buf[..pos] + bytes + buf[pos + |bytes|..]
  }

  /** How a read comes out: it is refused, it goes to a place outside of the new buffer, or it goes
      through and leaves the buffer and the stream so. */
  datatype Got = Refused | Beyond | Through(buf: seq<Byte>, left: Block)

  /** The test of the position, and that BZ2_bzRead takes a negative length for an error. */
  predicate Refuses(size: nat, pos: int, n: int) { Wrap64(pos + n) >= size || Cut(n) < 0 }

  /** The test of the new position, BZ2_bzRead of `n` bytes to new + pos, and the test of what it
      returns. */
  function ReadAt(b: Block, buf: seq<Byte>, pos: int, n: int): (r: Got)
    ensures r.Through? ==> |r.buf| == |buf|
    ensures r.Through? && n > 0 ==> n < 0x8000_0000 && 0 <= pos && pos + n <= |buf|
  {
    if Refuses(|buf|, pos, n) then Refused
    else
      var bytes := Delivered(b, Cut(n));
      if Outside(|buf|, pos, |bytes|) then Beyond
      else if |bytes| < n || !EndsWell(b, Cut(n)) then Refused
      else Through(Put(buf, pos, bytes), Afterwards(b, Cut(n)))
  }

  // ---- The loop --------------------------------------------------------------------------

  /** What is still unread: the triples, and the two other blocks. */
  datatype Input = Input(ctrl: seq<Triple>, diff: Block, extra: Block)

  function Contents(s: Input): Streams { Streams(s.ctrl, s.diff.rest, s.extra.rest) }

  /** How bspatch ends: with the new buffer, which is the new file and one more byte; with NULL; in
      a read to a place outside of the buffer; or in a read of a block that is not within the patch,
      which is as far as the model goes. */
  datatype Outcome = Done(new_: seq<Byte>) | Failed | Astray | Unbounded

  /** The loop that adds the old bytes to the diff bytes just read. */
  function AddAt(oldFile: seq<Byte>, oldpos: int, buf: seq<Byte>, pos: int, n: int)
    : (r: seq<Byte>)
    requires n > 0 ==> 0 <= pos && pos + n <= |buf|
    ensures |r| == |buf|
  {
    if n <= 0 then buf
    else buf[..pos] + AddOld(oldFile, oldpos, buf[pos..pos + n]) + buf[pos + n..]
  }

  /** A round of the loop either ends it or leaves this to go on with. */
  datatype Turn = Ends(end: Outcome) | Goes(next: Input, buf: seq<Byte>, pos: int)

  /** The round for a triple. */
  function Round(oldFile: seq<Byte>, s: Input, oldpos: int, buf: seq<Byte>, pos: int): (r: Turn)
    requires |s.ctrl| > 0
    ensures r.Goes? ==> |r.buf| == |buf| && r.next.ctrl == s.ctrl[1..]
    ensures r.Ends? ==> !r.end.Done?
  {
    var t := s.ctrl[0];
    match ReadAt(s.diff, buf, pos, t.x)
    case Refused => Ends(Failed)
    case Beyond => Ends(Astray)
    case Through(buf1, diff) =>
      var buf2 := AddAt(oldFile, oldpos, buf1, pos, t.x);
      var pos1 := Wrap64(pos + t.x);
      match ReadAt(s.extra, buf2, pos1, t.y)
      case Refused => Ends(Failed)
      case Beyond => Ends(Astray)
      case Through(buf3, extra) =>
        Goes(Input(s.ctrl[1..], diff, extra), buf3, Wrap64(pos1 + t.y))
  }

  /** The loop of bspatch, whose buffer has one byte more than the new file. */
  function Apply(oldFile: seq<Byte>, s: Input, oldpos: int, buf: seq<Byte>, pos: int): Outcome
    requires |buf| > 0
    decreases |s.ctrl|
  {
    if pos >= |buf| - 1 then Done(buf)
    else if |s.ctrl| == 0 then Failed
    else
      match Round(oldFile, s, oldpos, buf, pos)
      case Ends(end) => end
      case Goes(next, buf', pos') => Apply(oldFile, next, Seek(oldpos, s.ctrl[0]), buf', pos')
  }

  /** A round whose first read goes through ends as its second read does. */
  lemma RoundGoes(oldFile: seq<Byte>, s: Input, oldpos: int, buf: seq<Byte>, pos: int,
                  r1: Got, buf2: seq<Byte>, pos1: int, r2: Got)
    requires |s.ctrl| > 0 && r1 == ReadAt(s.diff, buf, pos, s.ctrl[0].x) && r1.Through?
    requires buf2 == AddAt(oldFile, oldpos, r1.buf, pos, s.ctrl[0].x)
    requires pos1 == Wrap64(pos + s.ctrl[0].x) && r2 == ReadAt(s.extra, buf2, pos1, s.ctrl[0].y)
    ensures Round(oldFile, s, oldpos, buf, pos)
            == match r2
               case Refused => Ends(Failed)
               case Beyond => Ends(Astray)
               case Through(buf3, extra) =>
                 Goes(Input(s.ctrl[1..], r1.left, extra), buf3, Wrap64(pos1 + s.ctrl[0].y))
  {
  }

  /** How the loop ends from here. */
  function EndOf(oldFile: seq<Byte>, s: Input, oldpos: int, buf: seq<Byte>, pos: int): Outcome
    requires |buf| > 0
  {
    Apply(oldFile, s, oldpos, buf, pos)
  }

  lemma LoopGoes(oldFile: seq<Byte>, s: Input, oldpos: int, buf: seq<Byte>, pos: int, turn: Turn)
    requires |buf| > 0 && pos < |buf| - 1 && |s.ctrl| > 0
    requires turn == Round(oldFile, s, oldpos, buf, pos)
    ensures EndOf(oldFile, s, oldpos, buf, pos)
            == match turn
               case Ends(end) => end
               case Goes(next, buf', pos') =>
                 EndOf(oldFile, next, Seek(oldpos, s.ctrl[0]), buf', pos')
  {
  }

  // ---- Lengths that are cut --------------------------------------------------------------

  /** The test of bspatch after a read: BZ2_bzRead has taken the length, has not reported an error,
      and has not returned less than the length. */
  predicate ReadPasses(b: Block, n: int) {
    Cut(n) >= 0 && EndsWell(b, Cut(n)) && |Delivered(b, Cut(n))| >= n
  }

  /** The test means that the bytes have been delivered, except for a negative length that loses its
      sign when it is cut: that one passes whatever comes, unless there is an error. */
  lemma ReadTestIff(b: Block, n: int)
    ensures (ReadPasses(b, n) <==> CanRead(b.rest, n))
            <==> !(n < 0 && Cut(n) >= 0 && EndsWell(b, Cut(n)))
  {
  }

  /** A length that loses its sign takes the position to before the buffer, unless more than 2^31
      bytes have been written. */
  lemma LostSignGoesBack(pos: nat, n: int)
    requires n < 0 && Cut(n) >= 0
    ensures n < -0x8000_0000 && (pos <= 0x8000_0000 ==> pos + n < 0)
  {
  }

  /** Where a read of a block with enough bytes takes the position: it ends the loop, it goes
      outside of the buffer, or it takes the position on. */
  datatype Way = Stops | Leaves | Comes(pos: int)

  function WayOf(size: nat, pos: int, n: int): Way {
    if Refuses(size, pos, n) then Stops
    else if Outside(size, pos, Cut(n)) then Leaves
    else if Cut(n) < n then Stops
    else Comes(Wrap64(pos + n))
  }

  /** No read goes outside of the buffer on the way of the position through the triples, if the
      blocks have all the bytes that are asked for. */
  predicate Tame(ts: seq<Triple>, pos: int, size: nat) {
    if pos >= size - 1 || |ts| == 0 then true
    else
      match WayOf(size, pos, ts[0].x)
      case Stops => true
      case Leaves => false
      case Comes(pos1) =>
        match WayOf(size, pos1, ts[0].y)
        case Stops => true
        case Leaves => false
        case Comes(pos2) => Tame(ts[1..], pos2, size)
  }

  /** A read of any block goes the way, or is refused, where the way does not leave the buffer. */
  lemma ReadGoes(b: Block, buf: seq<Byte>, pos: int, n: int)
    ensures var r := ReadAt(b, buf, pos, n);
            match WayOf(|buf|, pos, n)
            case Stops => r == Refused
            case Leaves => true
            case Comes(pos1) => !r.Beyond? && pos1 == Wrap64(pos + n)
  {
  }

  lemma TameRound(oldFile: seq<Byte>, s: Input, oldpos: int, buf: seq<Byte>, pos: int)
    requires |buf| > 0 && pos < |buf| - 1 && |s.ctrl| > 0 && Tame(s.ctrl, pos, |buf|)
    ensures match Round(oldFile, s, oldpos, buf, pos)
            case Ends(end) => end == Failed
            case Goes(next, buf', pos') => Tame(next.ctrl, pos', |buf|)
  {
    var t := s.ctrl[0];
    ReadGoes(s.diff, buf, pos, t.x);
    var r1 := ReadAt(s.diff, buf, pos, t.x);
    if r1.Through? {
      var buf2, pos1 := AddAt(oldFile, oldpos, r1.buf, pos, t.x), Wrap64(pos + t.x);
      ReadGoes(s.extra, buf2, pos1, t.y);
      RoundGoes(oldFile, s, oldpos, buf, pos, r1, buf2, pos1, ReadAt(s.extra, buf2, pos1, t.y));
    }
  }

  lemma {:induction false} TameStaysInside(oldFile: seq<Byte>, s: Input, oldpos: int,
                                           buf: seq<Byte>, pos: int)
    requires |buf| > 0 && Tame(s.ctrl, pos, |buf|)
    ensures var end := Apply(oldFile, s, oldpos, buf, pos); end.Done? || end == Failed
    decreases |s.ctrl|
  {
    if pos < |buf| - 1 && |s.ctrl| > 0 {
      TameRound(oldFile, s, oldpos, buf, pos);
      var turn := Round(oldFile, s, oldpos, buf, pos);
      if turn.Goes? {
        TameStaysInside(oldFile, turn.next, Seek(oldpos, s.ctrl[0]), turn.buf, turn.pos);
      }
    }
  }

  /** The bytes that all reads of one block may ask for. */
  function Asked(n: int): nat { if Cut(n) < 0 then 0 else Cut(n) }

  function Need(ts: seq<Triple>): nat {
    if |ts| == 0 then 0 else Asked(ts[0].x) + Asked(ts[0].y) + Need(ts[1..])
  }

  predicate Ample(s: Input) { |s.diff.rest| >= Need(s.ctrl) && |s.extra.rest| >= Need(s.ctrl) }

  lemma WildRead(b: Block, buf: seq<Byte>, pos: int, n: int)
    requires |b.rest| >= Asked(n)
    ensures var r := ReadAt(b, buf, pos, n);
            match WayOf(|buf|, pos, n)
            case Stops => r == Refused
            case Leaves => r == Beyond
            case Comes(_) => r.Through? && r.left == Block(b.rest[Asked(n)..], b.whole)
  {
  }

  lemma AmpleNext(s: Input, next: Input)
    requires |s.ctrl| > 0 && Ample(s) && next.ctrl == s.ctrl[1..]
    requires next.diff.rest == s.diff.rest[Asked(s.ctrl[0].x)..]
    requires next.extra.rest == s.extra.rest[Asked(s.ctrl[0].y)..]
    ensures Ample(next)
  {
  }

  lemma WildRound(oldFile: seq<Byte>, s: Input, oldpos: int, buf: seq<Byte>, pos: int)
    requires |buf| > 0 && !Tame(s.ctrl, pos, |buf|) && Ample(s)
    ensures match Round(oldFile, s, oldpos, buf, pos)
            case Ends(end) => end == Astray
            case Goes(next, buf', pos') => !Tame(next.ctrl, pos', |buf|) && Ample(next)
  {
    var t := s.ctrl[0];
    WildRead(s.diff, buf, pos, t.x);
    var r1 := ReadAt(s.diff, buf, pos, t.x);
    if r1.Through? {
      var buf2, pos1 := AddAt(oldFile, oldpos, r1.buf, pos, t.x), Wrap64(pos + t.x);
      WildRead(s.extra, buf2, pos1, t.y);
      var r2 := ReadAt(s.extra, buf2, pos1, t.y);
      RoundGoes(oldFile, s, oldpos, buf, pos, r1, buf2, pos1, r2);
      if r2.Through? {
        AmpleNext(s, Input(s.ctrl[1..], r1.left, r2.left));
      }
    }
  }

  lemma {:induction false} WildGoesAstray(oldFile: seq<Byte>, s: Input, oldpos: int,
                                          buf: seq<Byte>, pos: int)
    requires |buf| > 0 && !Tame(s.ctrl, pos, |buf|) && Ample(s)
    ensures Apply(oldFile, s, oldpos, buf, pos) == Astray
    decreases |s.ctrl|
  {
    WildRound(oldFile, s, oldpos, buf, pos);
    var turn := Round(oldFile, s, oldpos, buf, pos);
    if turn.Goes? {
      WildGoesAstray(oldFile, turn.next, Seek(oldpos, s.ctrl[0]), turn.buf, turn.pos);
    }
  }

  /** The loop never reads to a place outside of its buffer, whatever the old file, the buffer and
      the two blocks contain, if and only if the decoded lengths are tame. */
  lemma StaysInsideIff(ts: seq<Triple>, newsize: nat)
    ensures Tame(ts, 0, newsize + 1) <==>
            forall oldFile, diff, extra, buf :: |buf| == newsize + 1 ==>
              Apply(oldFile, Input(ts, diff, extra), 0, buf, 0) != Astray
  {
    if Tame(ts, 0, newsize + 1) {
      forall oldFile, diff, extra, buf | |buf| == newsize + 1
        ensures Apply(oldFile, Input(ts, diff, extra), 0, buf, 0) != Astray
      {
        TameStaysInside(oldFile, Input(ts, diff, extra), 0, buf, 0);
      }
    } else {
      var zeros := Block(seq<Byte>(Need(ts), i => 0), true);
      WildGoesAstray([], Input(ts, zeros, zeros), 0, seq<Byte>(newsize + 1, i => 0), 0);
    }
  }

  // ---- Honest lengths --------------------------------------------------------------------

  /** No length is negative before the file is complete, or a length too large for it comes up. */
  predicate Honest(ts: seq<Triple>, pos: nat, newsize: nat) {
    pos >= newsize || |ts| == 0
    || (var t := ts[0];
        t.x >= 0 && (pos + t.x <= newsize ==>
          t.y >= 0 && (pos + t.x + t.y <= newsize ==>
            Honest(ts[1..], pos + t.x + t.y, newsize))))
  }

  predicate Plain(pos: nat, n: int, newsize: nat) { 0 <= n < 0x8000_0000 && pos + n <= newsize }

  lemma PlainRead(b: Block, buf: seq<Byte>, pos: nat, n: nat)
    requires 0 < |buf| < TwoTo63() && Plain(pos, n, |buf| - 1)
    ensures ReadAt(b, buf, pos, n)
            == if CanRead(b.rest, n)
               then Through(Put(buf, pos, b.rest[..n]), Block(b.rest[n..], b.whole)) else Refused
  {
  }

  lemma NoRoom(b: Block, buf: seq<Byte>, pos: nat, n: nat)
    requires 0 < |buf| < TwoTo63() && pos < |buf| && !Plain(pos, n, |buf| - 1)
    ensures !ReadAt(b, buf, pos, n).Through?
  {
  }

  /** The byte behind the new file. */
  function Last(buf: seq<Byte>): (r: seq<Byte>)
    requires |buf| > 0
    ensures |r| == 1
  {
    buf[|buf| - 1..]
  }

  /** The file that the streams describe after what the buffer holds already. */
  function Described(oldFile: seq<Byte>, s: Input, oldpos: int, buf: seq<Byte>, pos: nat)
    : Option<seq<Byte>>
    requires pos < |buf|
  {
    Assemble(oldFile, Contents(s), oldpos, buf[..pos], |buf| - 1)
  }

  /** What an honest round puts into the buffer. */
  function Filled(oldFile: seq<Byte>, s: Input, oldpos: int, buf: seq<Byte>, pos: nat): seq<Byte>
    requires |s.ctrl| > 0 && CanRead(s.diff.rest, s.ctrl[0].x)
    requires CanRead(s.extra.rest, s.ctrl[0].y) && pos <= |buf|
  {
    var t := s.ctrl[0];
    buf[..pos] + AddOld(oldFile, oldpos, s.diff.rest[..t.x]) + s.extra.rest[..t.y]
  }

  function Left(s: Input): Input
    requires |s.ctrl| > 0 && CanRead(s.diff.rest, s.ctrl[0].x)
    requires CanRead(s.extra.rest, s.ctrl[0].y)
  {
    var t := s.ctrl[0];
    Input(s.ctrl[1..], Block(s.diff.rest[t.x..], s.diff.whole),
          Block(s.extra.rest[t.y..], s.extra.whole))
  }

  lemma PutTwice(oldFile: seq<Byte>, oldpos: int, buf: seq<Byte>, pos: nat, d: seq<Byte>,
                 e: seq<Byte>) returns (buf': seq<Byte>)
    requires pos + |d| + |e| < |buf|
    ensures buf' == Put(AddAt(oldFile, oldpos, Put(buf, pos, d), pos, |d|), pos + |d|, e)
    ensures |buf'| == |buf| && Last(buf') == Last(buf)
    ensures buf'[..pos + |d| + |e|] == buf[..pos] + AddOld(oldFile, oldpos, d) + e
  {
    var buf1 := Put(buf, pos, d);
    assert buf1 == buf[..pos] + d + buf[pos + |d|..];
    assert buf1[pos..pos + |d|] == d && buf1[..pos] == buf[..pos];
    var a := AddOld(oldFile, oldpos, d);
    var buf2 := AddAt(oldFile, oldpos, buf1, pos, |d|);
    assert buf2 == buf[..pos] + a + buf[pos + |d|..];
    buf' := Put(buf2, pos + |d|, e);
    assert buf2[..pos + |d|] == buf[..pos] + a;
    assert buf' == buf[..pos] + a + e + buf[pos + |d| + |e|..];
  }

  lemma InWord(n: int)
    requires -TwoTo63() <= n < TwoTo63()
    ensures Wrap64(n) == n
  {
  }

  /** The first half of an honest round. */
  lemma PlainHalf(oldFile: seq<Byte>, s: Input, oldpos: int, buf: seq<Byte>, pos: nat)
    returns (buf2: seq<Byte>, r2: Got)
    requires 0 < |buf| < TwoTo63() && |s.ctrl| > 0
    requires Plain(pos, s.ctrl[0].x, |buf| - 1) && CanRead(s.diff.rest, s.ctrl[0].x)
    ensures var t := s.ctrl[0];
            && buf2 == AddAt(oldFile, oldpos, Put(buf, pos, s.diff.rest[..t.x]), pos, t.x)
            && r2 == ReadAt(s.extra, buf2, pos + t.x, t.y)
            && Round(oldFile, s, oldpos, buf, pos)
               == match r2
                  case Refused => Ends(Failed)
                  case Beyond => Ends(Astray)
                  case Through(buf3, extra) =>
                    Goes(Input(s.ctrl[1..], Block(s.diff.rest[t.x..], s.diff.whole), extra), buf3,
                         Wrap64(pos + t.x + t.y))
  {
    var t := s.ctrl[0];
    var r1 := ReadAt(s.diff, buf, pos, t.x);
    PlainRead(s.diff, buf, pos, t.x);
    buf2 := AddAt(oldFile, oldpos, r1.buf, pos, t.x);
    InWord(pos + t.x);
    r2 := ReadAt(s.extra, buf2, pos + t.x, t.y);
    RoundGoes(oldFile, s, oldpos, buf, pos, r1, buf2, pos + t.x, r2);
  }

  lemma PlainTurn(oldFile: seq<Byte>, s: Input, oldpos: int, buf: seq<Byte>, pos: nat)
    returns (buf2: seq<Byte>)
    requires 0 < |buf| < TwoTo63() && |s.ctrl| > 0
    requires Plain(pos, s.ctrl[0].x, |buf| - 1) && CanRead(s.diff.rest, s.ctrl[0].x)
    requires Plain(pos + s.ctrl[0].x, s.ctrl[0].y, |buf| - 1)
    requires CanRead(s.extra.rest, s.ctrl[0].y)
    ensures var t := s.ctrl[0];
            && buf2 == AddAt(oldFile, oldpos, Put(buf, pos, s.diff.rest[..t.x]), pos, t.x)
            && Round(oldFile, s, oldpos, buf, pos)
               == Goes(Left(s), Put(buf2, pos + t.x, s.extra.rest[..t.y]), pos + t.x + t.y)
  {
    var t := s.ctrl[0];
    var r2;
    buf2, r2 := PlainHalf(oldFile, s, oldpos, buf, pos);
    PlainRead(s.extra, buf2, pos + t.x, t.y);
    InWord(pos + t.x + t.y);
  }

  /** What the new buffer holds after an honest round. */
  lemma PlainFills(oldFile: seq<Byte>, s: Input, oldpos: int, buf: seq<Byte>, pos: nat,
                   buf2: seq<Byte>) returns (buf': seq<Byte>)
    requires |s.ctrl| > 0 && CanRead(s.diff.rest, s.ctrl[0].x)
    requires CanRead(s.extra.rest, s.ctrl[0].y) && pos + s.ctrl[0].x + s.ctrl[0].y < |buf|
    requires buf2 == AddAt(oldFile, oldpos, Put(buf, pos, s.diff.rest[..s.ctrl[0].x]), pos,
                           s.ctrl[0].x)
    ensures var t := s.ctrl[0];
            && buf' == Put(buf2, pos + t.x, s.extra.rest[..t.y])
            && |buf'| == |buf| && Last(buf') == Last(buf)
            && buf'[..pos + t.x + t.y] == Filled(oldFile, s, oldpos, buf, pos)
  {
    var t := s.ctrl[0];
    buf' := PutTwice(oldFile, oldpos, buf, pos, s.diff.rest[..t.x], s.extra.rest[..t.y]);
  }

  lemma PlainRound(oldFile: seq<Byte>, s: Input, oldpos: int, buf: seq<Byte>, pos: nat)
    returns (turn: Turn)
    requires 0 < |buf| < TwoTo63() && |s.ctrl| > 0 && pos < |buf| - 1
    requires Plain(pos, s.ctrl[0].x, |buf| - 1) && CanRead(s.diff.rest, s.ctrl[0].x)
    requires Plain(pos + s.ctrl[0].x, s.ctrl[0].y, |buf| - 1)
    requires CanRead(s.extra.rest, s.ctrl[0].y)
    ensures turn == Round(oldFile, s, oldpos, buf, pos)
    ensures turn == Goes(Left(s), turn.buf, pos + s.ctrl[0].x + s.ctrl[0].y)
    ensures |turn.buf| == |buf| && Last(turn.buf) == Last(buf)
    ensures turn.buf[..turn.pos] == Filled(oldFile, s, oldpos, buf, pos)
  {
    var buf2 := PlainTurn(oldFile, s, oldpos, buf, pos);
    var buf' := PlainFills(oldFile, s, oldpos, buf, pos, buf2);
    turn := Goes(Left(s), buf', pos + s.ctrl[0].x + s.ctrl[0].y);
  }

  /** The file of the reference after an honest round. */
  lemma PlainAssemble(oldFile: seq<Byte>, s: Input, oldpos: int, buf: seq<Byte>, pos: nat)
    requires |s.ctrl| > 0 && pos < |buf| - 1
    requires CanRead(s.diff.rest, s.ctrl[0].x) && CanRead(s.extra.rest, s.ctrl[0].y)
    requires pos + s.ctrl[0].x + s.ctrl[0].y < |buf|
    ensures Described(oldFile, s, oldpos, buf, pos)
            == Assemble(oldFile, Contents(Left(s)), Seek(oldpos, s.ctrl[0]),
                        Filled(oldFile, s, oldpos, buf, pos), |buf| - 1)
  {
  }

  lemma DescribedGoes(oldFile: seq<Byte>, s: Input, oldpos: int, buf: seq<Byte>, pos: nat,
                      turn: Turn)
    requires |s.ctrl| > 0 && pos < |buf| - 1
    requires CanRead(s.diff.rest, s.ctrl[0].x) && CanRead(s.extra.rest, s.ctrl[0].y)
    requires pos + s.ctrl[0].x + s.ctrl[0].y < |buf|
    requires turn.Goes? && turn == Goes(Left(s), turn.buf, pos + s.ctrl[0].x + s.ctrl[0].y)
    requires |turn.buf| == |buf| && turn.buf[..turn.pos] == Filled(oldFile, s, oldpos, buf, pos)
    ensures Described(oldFile, s, oldpos, buf, pos)
            == Described(oldFile, turn.next, Seek(oldpos, s.ctrl[0]), turn.buf, turn.pos)
  {
    PlainAssemble(oldFile, s, oldpos, buf, pos);
  }

  lemma StuckStep(oldFile: seq<Byte>, s: Input, oldpos: int, buf: seq<Byte>, pos: nat)
    requires 0 < |buf| < TwoTo63() && |s.ctrl| > 0 && pos < |buf| - 1
    requires Honest(s.ctrl, pos, |buf| - 1)
    requires var t := s.ctrl[0];
             !(Plain(pos, t.x, |buf| - 1) && CanRead(s.diff.rest, t.x)
               && Plain(pos + t.x, t.y, |buf| - 1) && CanRead(s.extra.rest, t.y))
    ensures !EndOf(oldFile, s, oldpos, buf, pos).Done?
    ensures Described(oldFile, s, oldpos, buf, pos) == None
  {
    StuckRound(oldFile, s, oldpos, buf, pos);
    StuckAssemble(oldFile, s, oldpos, buf, pos);
  }

  lemma StuckAssemble(oldFile: seq<Byte>, s: Input, oldpos: int, buf: seq<Byte>, pos: nat)
    requires |s.ctrl| > 0 && pos < |buf| - 1
    requires var t := s.ctrl[0];
             !(Plain(pos, t.x, |buf| - 1) && CanRead(s.diff.rest, t.x)
               && Plain(pos + t.x, t.y, |buf| - 1) && CanRead(s.extra.rest, t.y))
    ensures Described(oldFile, s, oldpos, buf, pos) == None
  {
  }

  /** An honest round that cannot be read as it says ends the loop. */
  lemma StuckRound(oldFile: seq<Byte>, s: Input, oldpos: int, buf: seq<Byte>, pos: nat)
    requires 0 < |buf| < TwoTo63() && |s.ctrl| > 0 && pos < |buf| - 1
    requires Honest(s.ctrl, pos, |buf| - 1)
    requires var t := s.ctrl[0];
             !(Plain(pos, t.x, |buf| - 1) && CanRead(s.diff.rest, t.x)
               && Plain(pos + t.x, t.y, |buf| - 1) && CanRead(s.extra.rest, t.y))
    ensures Round(oldFile, s, oldpos, buf, pos).Ends?
  {
    var t := s.ctrl[0];
    if !Plain(pos, t.x, |buf| - 1) {
      NoRoom(s.diff, buf, pos, t.x);
    } else if !CanRead(s.diff.rest, t.x) {
      PlainRead(s.diff, buf, pos, t.x);
    } else {
      var buf2, r2 := PlainHalf(oldFile, s, oldpos, buf, pos);
      if Plain(pos + t.x, t.y, |buf| - 1) {
        PlainRead(s.extra, buf2, pos + t.x, t.y);
      } else {
        NoRoom(s.extra, buf2, pos + t.x, t.y);
      }
    }
  }

  /** The loop ends with the file that the reference gives, or with none where that gives none. */
  predicate Agrees(end: Outcome, file: Option<seq<Byte>>, last: seq<Byte>) {
    match file
    case Some(r) => end == Done(r + last)
    case None => !end.Done?
  }

  lemma PlainStep(oldFile: seq<Byte>, s: Input, oldpos: int, buf: seq<Byte>, pos: nat)
    returns (turn: Turn)
    requires 0 < |buf| < TwoTo63() && |s.ctrl| > 0 && pos < |buf| - 1
    requires Plain(pos, s.ctrl[0].x, |buf| - 1) && CanRead(s.diff.rest, s.ctrl[0].x)
    requires Plain(pos + s.ctrl[0].x, s.ctrl[0].y, |buf| - 1)
    requires CanRead(s.extra.rest, s.ctrl[0].y)
    ensures turn.Goes? && turn.next.ctrl == s.ctrl[1..]
    ensures turn.pos == pos + s.ctrl[0].x + s.ctrl[0].y < |buf|
    ensures |turn.buf| == |buf| && Last(turn.buf) == Last(buf)
    ensures var z := Seek(oldpos, s.ctrl[0]);
            && EndOf(oldFile, s, oldpos, buf, pos)
               == EndOf(oldFile, turn.next, z, turn.buf, turn.pos)
            && Described(oldFile, s, oldpos, buf, pos)
               == Described(oldFile, turn.next, z, turn.buf, turn.pos)
  {
    turn := PlainRound(oldFile, s, oldpos, buf, pos);
    LoopGoes(oldFile, s, oldpos, buf, pos, turn);
    DescribedGoes(oldFile, s, oldpos, buf, pos, turn);
  }

  lemma LastStep(oldFile: seq<Byte>, s: Input, oldpos: int, buf: seq<Byte>, pos: nat)
    requires pos < |buf| && (pos == |buf| - 1 || |s.ctrl| == 0)
    ensures Agrees(EndOf(oldFile, s, oldpos, buf, pos),
                   Described(oldFile, s, oldpos, buf, pos), Last(buf))
  {
    if pos == |buf| - 1 {
      assert buf[..pos] + Last(buf) == buf;
    }
  }

  lemma SomeIsPlain(oldFile: seq<Byte>, s: Input, oldpos: int, buf: seq<Byte>, pos: nat)
    requires pos < |buf| - 1
    requires Described(oldFile, s, oldpos, buf, pos).Some?
    ensures |s.ctrl| > 0
    ensures var t := s.ctrl[0];
            && Plain(pos, t.x, |buf| - 1) && CanRead(s.diff.rest, t.x)
            && Plain(pos + t.x, t.y, |buf| - 1) && CanRead(s.extra.rest, t.y)
  {
  }

  /** The loop gives a file that the streams describe. */
  lemma {:induction false} AssembledIsApplied(oldFile: seq<Byte>, s: Input, oldpos: int,
                                              buf: seq<Byte>, pos: nat, r: seq<Byte>)
    requires 0 < |buf| < TwoTo63() && pos < |buf|
    requires Described(oldFile, s, oldpos, buf, pos) == Some(r)
    ensures EndOf(oldFile, s, oldpos, buf, pos) == Done(r + Last(buf))
    decreases |s.ctrl|
  {
    if pos == |buf| - 1 {
      LastStep(oldFile, s, oldpos, buf, pos);
    } else {
      SomeIsPlain(oldFile, s, oldpos, buf, pos);
      var turn := PlainStep(oldFile, s, oldpos, buf, pos);
      AssembledIsApplied(oldFile, turn.next, Seek(oldpos, s.ctrl[0]), turn.buf, turn.pos, r);
    }
  }

  lemma NoneStep(oldFile: seq<Byte>, s: Input, oldpos: int, buf: seq<Byte>, pos: nat)
    returns (turn: Turn)
    requires 0 < |buf| < TwoTo63() && |s.ctrl| > 0 && pos < |buf| - 1
    requires Plain(pos, s.ctrl[0].x, |buf| - 1) && CanRead(s.diff.rest, s.ctrl[0].x)
    requires Plain(pos + s.ctrl[0].x, s.ctrl[0].y, |buf| - 1)
    requires CanRead(s.extra.rest, s.ctrl[0].y) && Honest(s.ctrl, pos, |buf| - 1)
    ensures turn.Goes? && turn.next.ctrl == s.ctrl[1..] && 0 <= turn.pos < |buf|
    ensures |turn.buf| == |buf| && Honest(turn.next.ctrl, turn.pos, |turn.buf| - 1)
    ensures var z := Seek(oldpos, s.ctrl[0]);
            && EndOf(oldFile, s, oldpos, buf, pos)
               == EndOf(oldFile, turn.next, z, turn.buf, turn.pos)
            && Described(oldFile, s, oldpos, buf, pos)
               == Described(oldFile, turn.next, z, turn.buf, turn.pos)
  {
    turn := PlainStep(oldFile, s, oldpos, buf, pos);
  }

  /** With honest lengths it gives none where they describe none. */
  lemma {:induction false} NoneIsApplied(oldFile: seq<Byte>, s: Input, oldpos: int,
                                         buf: seq<Byte>, pos: nat)
    requires 0 < |buf| < TwoTo63() && pos < |buf| && Honest(s.ctrl, pos, |buf| - 1)
    requires Described(oldFile, s, oldpos, buf, pos) == None
    ensures !EndOf(oldFile, s, oldpos, buf, pos).Done?
    decreases |s.ctrl|
  {
    if |s.ctrl| == 0 || pos == |buf| - 1 {
      LastStep(oldFile, s, oldpos, buf, pos);
    } else {
      var t := s.ctrl[0];
      if Plain(pos, t.x, |buf| - 1) && CanRead(s.diff.rest, t.x)
         && Plain(pos + t.x, t.y, |buf| - 1) && CanRead(s.extra.rest, t.y) {
        var turn := NoneStep(oldFile, s, oldpos, buf, pos);
        NoneIsApplied(oldFile, turn.next, Seek(oldpos, t), turn.buf, turn.pos);
      } else {
        StuckStep(oldFile, s, oldpos, buf, pos);
      }
    }
  }

  /** With honest lengths the loop gives the file that the streams describe, and nothing where they
      describe none. */
  lemma HonestIsAssembled(oldFile: seq<Byte>, s: Input, oldpos: int, buf: seq<Byte>, pos: nat)
    requires 0 < |buf| < TwoTo63() && pos < |buf| && Honest(s.ctrl, pos, |buf| - 1)
    ensures Agrees(EndOf(oldFile, s, oldpos, buf, pos),
                   Described(oldFile, s, oldpos, buf, pos), Last(buf))
  {
    match Described(oldFile, s, oldpos, buf, pos)
    case Some(r) => AssembledIsApplied(oldFile, s, oldpos, buf, pos, r);
    case None => NoneIsApplied(oldFile, s, oldpos, buf, pos);
  }

  lemma {:induction false} DescribedIsHonest(oldFile: seq<Byte>, c: Streams, oldpos: int,
                                             rest: seq<Byte>, parts: nat, pos: nat)
    requires Describes(oldFile, c, oldpos, rest, parts)
    ensures Honest(c.ctrl, pos, pos + |rest|)
    decreases parts
  {
    if parts > 0 {
      var t := c.ctrl[0];
      DescribedIsHonest(oldFile, Streams(c.ctrl[1..], c.diff[t.x..], c.extra[t.y..]),
                        Seek(oldpos, t), rest[t.x + t.y..], parts - 1, pos + t.x + t.y);
    }
  }

  lemma DescribedIff(oldFile: seq<Byte>, s: Input, oldpos: int, buf: seq<Byte>, pos: nat,
                     r: seq<Byte>)
    requires pos < |buf| && pos == 0
    ensures Described(oldFile, s, oldpos, buf, pos) == Some(r)
            <==> |r| + 1 == |buf| && PatchesTo(oldFile, Contents(s), oldpos, r)
  {
    AssembledIff(oldFile, Contents(s), oldpos, buf[..pos], |buf| - 1, r);
  }

  lemma PatchIsHonest(oldFile: seq<Byte>, s: Input, oldpos: int, r: seq<Byte>, pos: nat)
    requires PatchesTo(oldFile, Contents(s), oldpos, r)
    ensures Honest(s.ctrl, pos, pos + |r|)
  {
    var parts :| Describes(oldFile, Contents(s), oldpos, r, parts);
    DescribedIsHonest(oldFile, Contents(s), oldpos, r, parts, pos);
  }

  /** The streams start with a description of `r`, and `r` has the promised size, if and only if the
      lengths are honest and bspatch gives `r`, followed by the last byte of its buffer. */
  lemma PatchSucceedsIff(oldFile: seq<Byte>, s: Input, oldpos: int, buf: seq<Byte>, pos: nat,
                         r: seq<Byte>)
    requires 0 < |buf| < TwoTo63() && pos == 0
    ensures (|r| + 1 == |buf| && PatchesTo(oldFile, Contents(s), oldpos, r))
            <==> Honest(s.ctrl, pos, |buf| - 1)
                 && Apply(oldFile, s, oldpos, buf, pos) == Done(r + Last(buf))
  {
    DescribedIff(oldFile, s, oldpos, buf, pos, r);
    if |r| + 1 == |buf| && PatchesTo(oldFile, Contents(s), oldpos, r) {
      PatchIsHonest(oldFile, s, oldpos, r, pos);
    }
    if Honest(s.ctrl, pos, |buf| - 1) {
      HonestPatch(oldFile, s, oldpos, buf, pos, r);
    }
  }

  lemma HonestPatch(oldFile: seq<Byte>, s: Input, oldpos: int, buf: seq<Byte>, pos: nat,
                    r: seq<Byte>)
    requires 0 < |buf| < TwoTo63() && pos < |buf| && Honest(s.ctrl, pos, |buf| - 1)
    ensures Described(oldFile, s, oldpos, buf, pos) == Some(r)
            <==> Apply(oldFile, s, oldpos, buf, pos) == Done(r + Last(buf))
  {
    HonestIsAssembled(oldFile, s, oldpos, buf, pos);
    SameEnd(Apply(oldFile, s, oldpos, buf, pos),
            Described(oldFile, s, oldpos, buf, pos), Last(buf), r);
  }

  lemma SameEnd(end: Outcome, file: Option<seq<Byte>>, last: seq<Byte>, r: seq<Byte>)
    requires Agrees(end, file, last)
    ensures file == Some(r) <==> end == Done(r + last)
  {
    match file
    case Some(f) => assert (f + last)[..|f|] == f && (r + last)[..|r|] == r;
    case None =>
  }

  // ---- Files of usual size ---------------------------------------------------------------

  /** From before the buffer the position only goes further back, if no read goes outside. */
  lemma StaysBefore(size: nat, pos: int, n: int)
    requires size <= 0x8000_0001 && -TwoTo63() <= pos < 0 && -TwoTo63() < n < TwoTo63()
    requires !Refuses(size, pos, n) && !Outside(size, pos, Cut(n)) && n <= Cut(n)
    ensures -TwoTo63() <= Wrap64(pos + n) < 0
  {
    assert n % 0x1_0000_0000 == 0;
    assert n + TwoTo63() >= 0x1_0000_0000;
  }

  /** After a length that loses its sign the position is before the buffer. */
  lemma GoesBefore(size: nat, pos: nat, n: int)
    requires 0 < size <= 0x8000_0001 && pos < size && -TwoTo63() < n < 0 && Cut(n) >= 0
    ensures -TwoTo63() <= Wrap64(pos + n) < 0
  {
    LostSignGoesBack(pos, n);
  }

  /** A read that goes through on the way of a tame position. */
  lemma TameRead(b: Block, buf: seq<Byte>, pos: int, n: int)
    requires ReadAt(b, buf, pos, n).Through?
    ensures !Refuses(|buf|, pos, n) && n <= Cut(n)
  {
  }

  lemma LostRound(oldFile: seq<Byte>, s: Input, oldpos: int, buf: seq<Byte>, pos: int)
    requires 0 < |buf| <= 0x8000_0001 && |s.ctrl| > 0
    requires -TwoTo63() <= pos < 0 && Tame(s.ctrl, pos, |buf|)
    ensures match Round(oldFile, s, oldpos, buf, pos)
            case Ends(end) => end == Failed
            case Goes(next, buf', pos') => -TwoTo63() <= pos' < 0 && Tame(next.ctrl, pos', |buf|)
  {
    TameRound(oldFile, s, oldpos, buf, pos);
    var t := s.ctrl[0];
    if Round(oldFile, s, oldpos, buf, pos).Goes? {
      TameRead(s.diff, buf, pos, t.x);
      StaysBefore(|buf|, pos, t.x);
      var buf1 := ReadAt(s.diff, buf, pos, t.x).buf;
      TameRead(s.extra, AddAt(oldFile, oldpos, buf1, pos, t.x), Wrap64(pos + t.x), t.y);
      StaysBefore(|buf|, Wrap64(pos + t.x), t.y);
    }
  }

  lemma {:induction false} LostFails(oldFile: seq<Byte>, s: Input, oldpos: int, buf: seq<Byte>,
                                     pos: int)
    requires 0 < |buf| <= 0x8000_0001
    requires -TwoTo63() <= pos < 0 && Tame(s.ctrl, pos, |buf|)
    ensures Apply(oldFile, s, oldpos, buf, pos) == Failed
    decreases |s.ctrl|
  {
    if |s.ctrl| > 0 {
      LostRound(oldFile, s, oldpos, buf, pos);
      var turn := Round(oldFile, s, oldpos, buf, pos);
      if turn.Goes? {
        LostFails(oldFile, turn.next, Seek(oldpos, s.ctrl[0]), turn.buf, turn.pos);
      }
    }
  }

  /** A round that goes on either was one of lengths with a sign, or has gone before the buffer. */
  lemma SignedRound(oldFile: seq<Byte>, s: Input, oldpos: int, buf: seq<Byte>, pos: nat)
    requires 0 < |buf| <= 0x8000_0001 && |s.ctrl| > 0
    requires pos < |buf| - 1 && Tame(s.ctrl, pos, |buf|)
    ensures var t := s.ctrl[0];
            match Round(oldFile, s, oldpos, buf, pos)
            case Ends(end) => end == Failed
            case Goes(next, buf', pos') =>
              && Tame(next.ctrl, pos', |buf|)
              && (-TwoTo63() <= pos' < 0
                  || (t.x >= 0 && t.y >= 0 && pos' == pos + t.x + t.y < |buf|))
  {
    TameRound(oldFile, s, oldpos, buf, pos);
    var t := s.ctrl[0];
    if Round(oldFile, s, oldpos, buf, pos).Goes? {
      var buf1 := ReadAt(s.diff, buf, pos, t.x).buf;
      var buf2, pos1 := AddAt(oldFile, oldpos, buf1, pos, t.x), Wrap64(pos + t.x);
      TameRead(s.diff, buf, pos, t.x);
      TameRead(s.extra, buf2, pos1, t.y);
      if t.x < 0 {
        GoesBefore(|buf|, pos, t.x);
        StaysBefore(|buf|, pos1, t.y);
      } else if t.y < 0 {
        GoesBefore(|buf|, pos1, t.y);
      }
    }
  }

  lemma HonestHere(ts: seq<Triple>, pos: nat, newsize: nat, next: seq<Triple>, pos': nat)
    requires |ts| > 0 && ts[0].x >= 0 && ts[0].y >= 0
    requires next == ts[1..] && pos' == pos + ts[0].x + ts[0].y
    ensures Honest(next, pos', newsize) ==> Honest(ts, pos, newsize)
  {
  }

  /** After which the loop ends well, the position has not gone before the buffer. */
  lemma DoneStays(oldFile: seq<Byte>, s: Input, oldpos: int, buf: seq<Byte>, pos: int)
    requires 0 < |buf| <= 0x8000_0001 && -TwoTo63() <= pos && Tame(s.ctrl, pos, |buf|)
    requires EndOf(oldFile, s, oldpos, buf, pos).Done?
    ensures pos >= 0
  {
    if pos < 0 { LostFails(oldFile, s, oldpos, buf, pos); }
  }

  lemma NotYetDone(oldFile: seq<Byte>, s: Input, oldpos: int, buf: seq<Byte>, pos: nat)
    requires pos < |buf| - 1 && EndOf(oldFile, s, oldpos, buf, pos).Done?
    ensures |s.ctrl| > 0 && Round(oldFile, s, oldpos, buf, pos).Goes?
  {
  }

  /** A round after which the loop ends well. */
  lemma DoneRound(oldFile: seq<Byte>, s: Input, oldpos: int, buf: seq<Byte>, pos: nat)
    returns (turn: Turn)
    requires 0 < |buf| <= 0x8000_0001
    requires pos < |buf| - 1 && Tame(s.ctrl, pos, |buf|)
    requires EndOf(oldFile, s, oldpos, buf, pos).Done?
    ensures |s.ctrl| > 0 && s.ctrl[0].x >= 0 && s.ctrl[0].y >= 0
    ensures turn.Goes? && turn.next.ctrl == s.ctrl[1..] && |turn.buf| == |buf|
    ensures turn.pos == pos + s.ctrl[0].x + s.ctrl[0].y < |buf|
    ensures Tame(turn.next.ctrl, turn.pos, |buf|)
    ensures EndOf(oldFile, turn.next, Seek(oldpos, s.ctrl[0]), turn.buf, turn.pos).Done?
  {
    NotYetDone(oldFile, s, oldpos, buf, pos);
    SignedRound(oldFile, s, oldpos, buf, pos);
    turn := Round(oldFile, s, oldpos, buf, pos);
    LoopGoes(oldFile, s, oldpos, buf, pos, turn);
    DoneStays(oldFile, turn.next, Seek(oldpos, s.ctrl[0]), turn.buf, turn.pos);
  }

  lemma DoneStep(oldFile: seq<Byte>, s: Input, oldpos: int, buf: seq<Byte>, pos: nat)
    returns (turn: Turn)
    requires 0 < |buf| <= 0x8000_0001
    requires pos < |buf| - 1 && Tame(s.ctrl, pos, |buf|)
    requires EndOf(oldFile, s, oldpos, buf, pos).Done?
    ensures |s.ctrl| > 0 && turn.Goes? && turn.next.ctrl == s.ctrl[1..]
    ensures |turn.buf| == |buf| && 0 <= turn.pos < |turn.buf|
    ensures Tame(turn.next.ctrl, turn.pos, |turn.buf|)
    ensures EndOf(oldFile, turn.next, Seek(oldpos, s.ctrl[0]), turn.buf, turn.pos).Done?
    ensures Honest(turn.next.ctrl, turn.pos, |turn.buf| - 1) ==> Honest(s.ctrl, pos, |buf| - 1)
  {
    turn := DoneRound(oldFile, s, oldpos, buf, pos);
    HonestHere(s.ctrl, pos, |buf| - 1, turn.next.ctrl, turn.pos);
  }

  lemma {:induction false} DoneIsHonest(oldFile: seq<Byte>, s: Input, oldpos: int,
                                        buf: seq<Byte>, pos: nat)
    requires 0 < |buf| <= 0x8000_0001
    requires pos < |buf| && Tame(s.ctrl, pos, |buf|)
    requires EndOf(oldFile, s, oldpos, buf, pos).Done?
    ensures Honest(s.ctrl, pos, |buf| - 1)
    decreases |s.ctrl|
  {
    if pos < |buf| - 1 {
      var turn := DoneStep(oldFile, s, oldpos, buf, pos);
      DoneIsHonest(oldFile, turn.next, Seek(oldpos, s.ctrl[0]), turn.buf, turn.pos);
    }
  }

  /** For a file of at most 2^31 bytes and tame lengths: bspatch gives `r` exactly if the streams
      describe it, and fails without a result otherwise. */
  lemma TamePatchIff(oldFile: seq<Byte>, s: Input, oldpos: int, buf: seq<Byte>, pos: nat,
                     r: seq<Byte>)
    requires 0 < |buf| <= 0x8000_0001 && pos == 0
    requires Tame(s.ctrl, pos, |buf|)
    ensures Apply(oldFile, s, oldpos, buf, pos) == Done(r + Last(buf))
            <==> |r| + 1 == |buf| && PatchesTo(oldFile, Contents(s), oldpos, r)
    ensures var end := Apply(oldFile, s, oldpos, buf, pos); end.Done? || end == Failed
  {
    TameStaysInside(oldFile, s, oldpos, buf, pos);
    PatchSucceedsIff(oldFile, s, oldpos, buf, pos, r);
    if Apply(oldFile, s, oldpos, buf, pos).Done? {
      DoneIsHonest(oldFile, s, oldpos, buf, pos);
    }
  }

  /** Honest lengths are tame. */
  lemma {:induction false} HonestIsTame(ts: seq<Triple>, pos: nat, size: nat)
    requires 0 < size <= 0x8000_0001
    requires pos < size && Honest(ts, pos, size - 1)
    ensures Tame(ts, pos, size)
    decreases |ts|
  {
    if pos < size - 1 && |ts| > 0 {
      var t := ts[0];
      HonestLength(size, pos, t.x);
      if pos + t.x < size && Cut(t.x) >= t.x {
        HonestLength(size, pos + t.x, t.y);
        if pos + t.x + t.y < size {
          HonestIsTame(ts[1..], pos + t.x + t.y, size);
        }
      }
    }
  }

  lemma HonestLength(size: nat, pos: nat, n: int)
    requires 0 < size <= 0x8000_0001 && pos < size && 0 <= n < TwoTo63()
    ensures pos + n < size ==>
              Wrap64(pos + n) == pos + n && (Cut(n) < 0 || !Outside(size, pos, Cut(n)))
    ensures pos + n >= size ==> Refuses(size, pos, n)
  {
  }

  // ---- What lengths that lose their sign do ----------------------------------------------

  /** A length of 5 - 2^32 is read as 5 bytes, and accepted.  Nothing else happens if no byte
      follows it: bspatch then fails.  If one does, it goes to a place before the buffer. */
  lemma LengthLosesSign(oldFile: seq<Byte>, diff: Block, extra: Block, buf: seq<Byte>)
    requires |buf| >= 5
    ensures Cut(5 - 0x1_0000_0000) == 5
    ensures var ts := [Triple(5 - 0x1_0000_0000, 0, 0)];
            Tame(ts, 0, |buf|) && Apply(oldFile, Input(ts, diff, extra), 0, buf, 0) == Failed
    ensures var ts := [Triple(5 - 0x1_0000_0000, 1, 0)];
            && !Tame(ts, 0, |buf|)
            && (EndsWell(diff, 5) && extra.rest != [] ==>
                  Apply(oldFile, Input(ts, diff, extra), 0, buf, 0) == Astray)
  {
  }

  /** Two lengths that take the position once around all 64-bit numbers: where the extra block is
      empty, bspatch gives its buffer as it got it from malloc, but for one byte, although the
      streams describe nothing. */
  lemma GarbageIsGiven(oldFile: seq<Byte>, d: Byte, buf: seq<Byte>, t: Triple, s: Input,
                       oldpos: int, pos: int, r: seq<Byte>)
    requires 3 <= |buf| <= 0x8000_0000 && pos == 0 && r != []
    requires t == Triple(1 - TwoTo63(), |buf| - 2 - TwoTo63(), 0)
    requires s == Input([t], Block([d], true), Block([], true))
    ensures !Tame(s.ctrl, pos, |buf|) && !PatchesTo(oldFile, Contents(s), oldpos, r)
    ensures Apply(oldFile, s, oldpos, buf, pos) == Done(buf[0 := d])
  {
    GarbageLengths(|buf|);
    GarbageRound(oldFile, d, buf, t, s, oldpos, pos);
  }

  lemma GarbageLengths(size: nat)
    requires 3 <= size <= 0x8000_0000
    ensures Cut(1 - TwoTo63()) == 1 && Cut(size - 2 - TwoTo63()) == size - 2
  {
  }

  lemma GarbageRound(oldFile: seq<Byte>, d: Byte, buf: seq<Byte>, t: Triple, s: Input,
                     oldpos: int, pos: int)
    requires 3 <= |buf| <= 0x8000_0000 && pos == 0
    requires t == Triple(1 - TwoTo63(), |buf| - 2 - TwoTo63(), 0)
    requires s == Input([t], Block([d], true), Block([], true))
    ensures Round(oldFile, s, oldpos, buf, pos)
            == Goes(Input([], Block([], true), Block([], false)), buf[0 := d], |buf| - 1)
  {
    GarbageLengths(|buf|);
    var buf1 := buf[0 := d];
    assert [d][..1] == [d] && Put(buf, pos, [d]) == buf1;
    RoundGoes(oldFile, s, oldpos, buf, pos, Through(buf1, Block([], true)), buf1, t.x,
              Through(buf1, Block([], false)));
  }
}
