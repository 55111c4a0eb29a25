/** The rewrite of the marked region of a configuration file in src/upgrade.c: the installed file
    keeps everything outside its markers, the region between them comes from the download. */
module ConfigRewrite {
  import opened Common

  datatype Markers = Markers(begin: string, end: string)

  /** The two markers of the program. */
  function Showtime(): Markers {
    Markers("# BEGIN SHOWTIME CONFIG\n", "# END SHOWTIME CONFIG\n")
  }

  /** One '#', and it comes first. */
  predicate HashLed(pat: string) {
    |pat| > 0 && pat[0] == '#' && forall k :: 1 <= k < |pat| ==> pat[k] != '#'
  }

  /** All the results need to know about the markers. */
  predicate Proper(m: Markers) {
    HashLed(m.begin) && HashLed(m.end) && !(m.begin <= m.end) && !(m.end <= m.begin)
  }

  lemma ShowtimeIsProper()
    ensures Proper(Showtime())
  {
    assert Showtime().begin[2] != Showtime().end[2];
  }

  // ---- Searching -------------------------------------------------------------------------

  predicate Match(s: string, pat: string, i: nat) {
    i + |pat| <= |s| && s[i..i + |pat|] == pat
  }

  ghost predicate Absent(s: string, pat: string) {
    forall i: nat :: i <= |s| ==> !Match(s, pat, i)
  }

  /** `i` is where `pat` occurs first. */
  ghost predicate First(s: string, pat: string, i: nat) {
    Match(s, pat, i) && forall k: nat :: k < i ==> !Match(s, pat, k)
  }

  /** What find_str promises. */
  ghost predicate Finds(s: string, pat: string, r: Option<nat>) {
    match r
    case None => Absent(s, pat)
    case Some(i) => First(s, pat, i)
  }

  function SearchFrom(s: string, pat: string, from: nat): (r: Option<nat>)
    requires from <= |s| + 1
    requires forall k: nat :: k < from ==> !Match(s, pat, k)
    ensures Finds(s, pat, r)
    decreases |s| + 1 - from
  {
    if from == |s| + 1 then None
    else if Match(s, pat, from) then Some(from)
    else SearchFrom(s, pat, from + 1)
  }

  function Find(s: string, pat: string): (r: Option<nat>)
    ensures Finds(s, pat, r)
  {
    SearchFrom(s, pat, 0)
  }

  // ---- The rewrite -----------------------------------------------------------------------

  /** Both markers are there, and the first END comes after the first BEGIN. */
  predicate Marked(s: string, m: Markers) {
    && Find(s, m.begin).Some?
    && Find(s, m.end).Some?
    && Find(s, m.begin).value < Find(s, m.end).value
  }

  function Head(s: string, m: Markers): string
    requires Marked(s, m)
  {
    s[..Find(s, m.begin).value]
  }

  function Region(s: string, m: Markers): string
    requires Marked(s, m)
  {
    s[Find(s, m.begin).value..Find(s, m.end).value]
  }

  function Tail(s: string, m: Markers): string
    requires Marked(s, m)
  {
    s[Find(s, m.end).value..]
  }

  /** patched_config_file; `cur` is None when the installed file cannot be read. */
  function Patched(upd: string, begin: nat, end: nat, cur: Option<string>, m: Markers): string
    requires begin <= end <= |upd|
  {
    match cur
    case None => upd
    case Some(c) =>
      var b := Find(c, m.begin);
      var e := Find(c, m.end);
      if b.None? || e.None? || e.value < b.value then upd
      else c[..b.value] + upd[begin..end] + c[e.value..]
  }

  /** What download_file writes for a partially updated file. */
  function Rewrite(upd: string, cur: Option<string>, m: Markers): string {
    if Marked(upd, m) then
      Patched(upd, Find(upd, m.begin).value, Find(upd, m.end).value, cur, m)
    else upd
  }

  // ---- Where matches can be --------------------------------------------------------------

  /** No occurrence of a marker reaches across a boundary behind which a '#' stands. */
  lemma JoinedFirst(a: string, t: string, pat: string, j: nat)
    requires HashLed(pat) && Absent(a, pat)
    requires First(t, pat, j) && t[0] == '#'
    ensures First(a + t, pat, |a| + j)
  {
    var s := a + t;
    assert s[|a| + j..|a| + j + |pat|] == t[j..j + |pat|];
    forall k: nat | k < |a| + j && k + |pat| <= |s|
      ensures !Match(s, pat, k)
    {
      if k + |pat| <= |a| {
        assert s[k..k + |pat|] == a[k..k + |pat|];
        assert !Match(a, pat, k);
      } else if k < |a| {
        assert s[k..k + |pat|][|a| - k] == s[|a|];
      } else {
        assert s[k..k + |pat|] == t[k - |a|..k - |a| + |pat|];
        assert !Match(t, pat, k - |a|);
      }
    }
  }

  /** What lies before the first occurrence has none. */
  lemma AbsentBefore(s: string, pat: string, i: nat, from: nat, to: nat)
    requires First(s, pat, i) && from <= to <= i && |pat| > 0
    ensures Absent(s[from..to], pat)
  {
    forall k: nat | k + |pat| <= to - from
      ensures !Match(s[from..to], pat, k)
    {
      SliceOfSlice(s, from, to, k, |pat|);
      assert !Match(s, pat, from + k);
    }
  }

  lemma FirstIsUnique(s: string, pat: string, i: nat)
    requires First(s, pat, i)
    ensures Find(s, pat) == Some(i)
  {
    assert Match(s, pat, i);
  }

  lemma Difference(p: string, q: string) returns (k: nat)
    requires !(p <= q) && !(q <= p)
    ensures k < |p| && k < |q| && p[k] != q[k]
  {
    if |p| <= |q| {
      assert p != q[..|p|];
      k :| k < |p| && p[k] != q[..|p|][k];
    } else {
      assert q != p[..|q|];
      k :| k < |q| && q[k] != p[..|q|][k];
    }
  }

  /** The two markers cannot start at the same place, nor END inside BEGIN. */
  lemma MarkersApart(s: string, m: Markers, b: nat, e: nat)
    requires Proper(m) && Match(s, m.begin, b) && Match(s, m.end, e) && b <= e
    ensures b + |m.begin| <= e
  {
    forall k | 0 <= k < |m.begin|
      ensures s[b + k] == m.begin[k]
    {
      assert s[b + k] == s[b..b + |m.begin|][k];
    }
    forall k | 0 <= k < |m.end|
      ensures s[e + k] == m.end[k]
    {
      assert s[e + k] == s[e..e + |m.end|][k];
    }
    var k := Difference(m.begin, m.end);
    assert s[b + k] != s[e + k];
    assert s[e + 0] == '#';
    forall j | b < j < b + |m.begin|
      ensures s[j] != '#'
    {
      assert s[b + (j - b)] == m.begin[j - b];
    }
  }

  /** The region starts with BEGIN, holds no END, and what follows it starts with END. */
  lemma RegionShape(s: string, m: Markers)
    requires Proper(m) && Marked(s, m)
    ensures First(Region(s, m), m.begin, 0) && Region(s, m)[0] == '#'
    ensures Absent(Region(s, m), m.end)
    ensures First(Tail(s, m), m.end, 0) && Tail(s, m)[0] == '#'
    ensures Absent(Head(s, m), m.begin) && Absent(Head(s, m), m.end)
  {
    var b, e := Find(s, m.begin).value, Find(s, m.end).value;
    MarkersApart(s, m, b, e);
    SliceOfSlice(s, b, e, 0, |m.begin|);
    assert s[e..|s|] == s[e..];
    SliceOfSlice(s, e, |s|, 0, |m.end|);
    assert Region(s, m)[0..|m.begin|] == s[b..b + |m.begin|];
    assert Tail(s, m)[0..|m.end|] == s[e..e + |m.end|];
    assert Region(s, m)[0] == Region(s, m)[0..|m.begin|][0];
    assert Tail(s, m)[0] == Tail(s, m)[0..|m.end|][0];
    AbsentBefore(s, m.end, e, b, e);
    AbsentBefore(s, m.begin, b, 0, b);
    AbsentBefore(s, m.end, e, 0, b);
  }

  /** Where the markers of a spliced file are. */
  lemma SplicedMarkers(head: string, mid: string, tail: string, m: Markers)
    requires Proper(m)
    requires Absent(head, m.begin) && Absent(head, m.end) && Absent(mid, m.end)
    requires First(mid, m.begin, 0) && mid[0] == '#'
    requires First(tail, m.end, 0) && tail[0] == '#'
    ensures First(head + (mid + tail), m.begin, |head|)
    ensures First(head + (mid + tail), m.end, |head| + |mid|)
  {
    var rest := mid + tail;
    assert rest[0..|m.begin|] == mid[0..|m.begin|];
    assert First(rest, m.begin, 0);
    JoinedFirst(head, rest, m.begin, 0);
    JoinedFirst(mid, tail, m.end, 0);
    JoinedFirst(head, rest, m.end, |mid|);
  }

  lemma SplicedParts(head: string, mid: string, tail: string, m: Markers)
    requires Proper(m)
    requires Absent(head, m.begin) && Absent(head, m.end) && Absent(mid, m.end)
    requires First(mid, m.begin, 0) && mid[0] == '#'
    requires First(tail, m.end, 0) && tail[0] == '#'
    ensures var r := head + mid + tail;
            Marked(r, m) && Head(r, m) == head && Region(r, m) == mid && Tail(r, m) == tail
  {
    var r := head + mid + tail;
    SplicedMarkers(head, mid, tail, m);
    assert r == head + (mid + tail);
    FirstIsUnique(r, m.begin, |head|);
    FirstIsUnique(r, m.end, |head| + |mid|);
    assert r[..|head|] == head;
    assert r[|head|..|head| + |mid|] == mid;
    assert r[|head| + |mid|..] == tail;
  }

  // ---- Main results ----------------------------------------------------------------------

  /** The new file is exactly the installed file with its region replaced: its first markers stand
      where the old text ended and began, everything outside them is unchanged. */
  lemma RewriteReplacesRegion(upd: string, cur: string, m: Markers)
    requires Proper(m) && Marked(upd, m) && Marked(cur, m)
    ensures var r := Rewrite(upd, Some(cur), m);
            && Marked(r, m)
            && Head(r, m) == Head(cur, m)
            && Region(r, m) == Region(upd, m)
            && Tail(r, m) == Tail(cur, m)
            && r == Head(cur, m) + Region(upd, m) + Tail(cur, m)
  {
    RegionShape(upd, m);
    RegionShape(cur, m);
    SplicedParts(Head(cur, m), Region(upd, m), Tail(cur, m), m);
  }

  /** In every other case the download is installed as it came. */
  lemma RewriteElseIsDownload(upd: string, cur: Option<string>, m: Markers)
    requires Proper(m)
    requires !Marked(upd, m) || cur.None? || !Marked(cur.value, m)
    ensures Rewrite(upd, cur, m) == upd
  {
    if Marked(upd, m) && cur.Some? {
      var c := cur.value;
      var b, e := Find(c, m.begin), Find(c, m.end);
      if b.Some? && e.Some? && b.value <= e.value {
        MarkersApart(c, m, b.value, e.value);
      }
    }
  }

  /** A file rewritten with itself stays as it is. */
  lemma RewriteWithItself(s: string, m: Markers)
    requires Proper(m)
    ensures Rewrite(s, Some(s), m) == s
  {
    if Marked(s, m) {
      RewriteReplacesRegion(s, s, m);
      assert s == Head(s, m) + Region(s, m) + Tail(s, m);
    } else {
      RewriteElseIsDownload(s, Some(s), m);
    }
  }

  /** Of two downloads in a row only the last one shows, and only inside the markers. */
  lemma LastRewriteWins(upd1: string, upd2: string, cur: string, m: Markers)
    requires Proper(m) && Marked(upd1, m) && Marked(upd2, m) && Marked(cur, m)
    ensures Rewrite(upd2, Some(Rewrite(upd1, Some(cur), m)), m) == Rewrite(upd2, Some(cur), m)
  {
    RewriteReplacesRegion(upd1, cur, m);
    RewriteReplacesRegion(upd2, Rewrite(upd1, Some(cur), m), m);
    RewriteReplacesRegion(upd2, cur, m);
  }

  /** Installing the same download again changes nothing, whatever was installed before. */
  lemma RewriteIsIdempotent(upd: string, cur: Option<string>, m: Markers)
    requires Proper(m)
    ensures var r := Rewrite(upd, cur, m);
            Rewrite(upd, Some(r), m) == r
  {
    if Marked(upd, m) && cur.Some? && Marked(cur.value, m) {
      LastRewriteWins(upd, upd, cur.value, m);
    } else {
      RewriteElseIsDownload(upd, cur, m);
      RewriteWithItself(upd, m);
    }
  }

  // ---- The program -----------------------------------------------------------------------

  /** find_str of src/misc/str.c. */
  method FindStr(s: array<char>, needle: string) returns (r: Option<nat>)
    ensures r == Find(s[..], needle)
    ensures Finds(s[..], needle, r)
  {
    var text := s[..];
    if s.Length < |needle| {
      return None;
    }
    var i := 0;
    while i <= s.Length - |needle|
      invariant 0 <= i <= s.Length - |needle| + 1
      invariant forall k: nat :: k < i ==> !Match(text, needle, k)
    {
      var j := 0;
      while j < |needle| && s[i + j] == needle[j]
        invariant 0 <= j <= |needle|
        invariant text[i..i + j] == needle[..j]
      {
        j := j + 1;
      }
      if j == |needle| {
        FirstIsUnique(text, needle, i);
        return Some(i);
      }
      assert text[i..i + |needle|][j] != needle[j];
      i := i + 1;
    }
    r := None;
  }

  method MemCpy(dst: array<char>, at: nat, src: array<char>, from: nat, n: nat)
    requires dst != src
    requires at + n <= dst.Length && from + n <= src.Length
    modifies dst
    ensures dst[..] == old(dst[..at]) + src[from..from + n] + old(dst[at + n..])
  {
    for i := 0 to n
      invariant dst[..at] == old(dst[..at])
      invariant dst[at..at + i] == src[from..from + i]
      invariant dst[at + n..] == old(dst[at + n..])
    {
      dst[at + i] := src[from + i];
    }
  }

  /** The three memcpy calls: seg1 and seg3 from the installed file, seg2 from the download. */
  method Splice(cur: array<char>, curBegin: nat, curEnd: nat,
                upd: array<char>, begin: nat, end: nat) returns (n: array<char>)
    requires curBegin <= curEnd <= cur.Length && begin <= end <= upd.Length
    ensures fresh(n)
    ensures n[..] == cur[..curBegin] + upd[begin..end] + cur[curEnd..]
  {
    var seg1 := curBegin;
    var seg2 := end - begin;
    var seg3 := cur.Length - curEnd;
    n := new char[seg1 + seg2 + seg3];
    MemCpy(n, 0, cur, 0, seg1);
    assert n[..seg1] == cur[..curBegin];
    MemCpy(n, seg1, upd, begin, seg2);
    assert n[..seg1 + seg2] == cur[..curBegin] + upd[begin..end];
    MemCpy(n, seg1 + seg2, cur, curEnd, seg3);
    assert cur[curEnd..curEnd + seg3] == cur[curEnd..];
  }

  ghost function Contents(f: Option<array<char>>): Option<string>
    reads match f case None => {} case Some(a) => {a}
  {
    if f.None? then None else Some(f.value[..])
  }

  method PatchedConfigFile(upd: array<char>, begin: nat, end: nat, cur: Option<array<char>>,
                           m: Markers)
    returns (n: array<char>)
    requires begin <= end <= upd.Length
    ensures n[..] == Patched(upd[..], begin, end, Contents(cur), m)
    ensures n == upd || fresh(n)
  {
    if cur.None? {
      return upd;
    }
    var curData := cur.value;
    var curBegin := FindStr(curData, m.begin);
    if curBegin.None? {
      return upd;
    }
    var curEnd := FindStr(curData, m.end);
    if curEnd.None? {
      return upd;
    }
    if curEnd.value < curBegin.value {
      return upd;
    }
    n := Splice(curData, curBegin.value, curEnd.value, upd, begin, end);
    assert upd[..][begin..end] == upd[begin..end];
    assert curData[..][..curBegin.value] == curData[..curBegin.value];
    assert curData[..][curEnd.value..] == curData[curEnd.value..];
  }

  /** The marker test of download_file and the rewrite it guards. */
  method RewriteDownload(b: array<char>, cur: Option<array<char>>, m: Markers)
    returns (n: array<char>)
    ensures n[..] == Rewrite(b[..], Contents(cur), m)
  {
    var newBegin := FindStr(b, m.begin);
    var newEnd := FindStr(b, m.end);
    n := b;
    if newBegin.Some? && newEnd.Some? && newEnd.value > newBegin.value {
      n := PatchedConfigFile(b, newBegin.value, newEnd.value, cur, m);
    }
  }
}
