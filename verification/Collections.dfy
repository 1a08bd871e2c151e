/** Optional values, and what sequences hold. */
module Collections {

  datatype Option<+T> = None | Some(value: T)

  ghost predicate Distinct<T>(s: seq<T>) {
    forall i, j | 0 <= i < j < |s| :: s[i] != s[j]
  }

  ghost predicate Prefix<T>(s: seq<T>, t: seq<T>) {
    |s| <= |t| && s == t[..|s|]
  }

  lemma PrefixTrans<T>(s: seq<T>, t: seq<T>, u: seq<T>)
    requires Prefix(s, t) && Prefix(t, u)
    ensures Prefix(s, u)
  {
    assert u[..|s|] == u[..|t|][..|s|];
  }

  ghost function Elements<T>(s: seq<T>): set<T> {
    set x | x in s
  }

  /** The sequence without its element `i`. */
  function Without<T>(s: seq<T>, i: nat): (r: seq<T>)
    requires i < |s|
    ensures |r| == |s| - 1
  {
    s[..i] + s[i + 1..]
  }
}
