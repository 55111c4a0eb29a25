/** What several components use. */
module Common {

  datatype Option<T> = None | Some(value: T)

  lemma SliceOfSlice<T>(s: seq<T>, from: nat, to: nat, k: nat, n: nat)
    requires from <= to <= |s| && k + n <= to - from
    ensures s[from..to][k..k + n] == s[from + k..from + k + n]
  {
    var t := s[from..to];
    var u, v := t[k..k + n], s[from + k..from + k + n];
    forall i | 0 <= i < n
      ensures u[i] == v[i]
    {
      assert u[i] == t[k + i];
    }
  }
}
