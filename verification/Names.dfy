/** Qualified names and their one-string form, split at the last dot. */
module Names {
  datatype Name<T> = Name(namespace: seq<T>, local: seq<T>)

  function Joined<T>(n: Name<T>, dot: T): seq<T> {
    n.namespace + [dot] + n.local
  }

  function LastIndex<T(==)>(s: seq<T>, dot: T): (i: int)
    ensures -1 <= i < |s| && (i >= 0 ==> s[i] == dot)
    ensures forall k :: i < k < |s| ==> s[k] != dot
  {
    if s == [] then -1
    else
      var n := |s| - 1;
      if s[n] == dot then n
      else LastIndex(s[..n], dot)
  }

  /** Everything in front of the last dot is the namespace; without a dot there is none. */
  function Split<T(==)>(s: seq<T>, dot: T): Name<T> {
    var i := LastIndex(s, dot);
    if i == -1 then Name([], s) else Name(s[..i], s[i + 1..])
  }

  lemma SplitThenJoined<T>(s: seq<T>, dot: T)
    requires dot in s
    ensures Joined(Split(s, dot), dot) == s
  {
    var i := LastIndex(s, dot);
    assert i >= 0 && s == s[..i] + [dot] + s[i + 1..];
  }

  /** A name is read from its string as it was if and only if its local part has no dot. */
  lemma JoinedThenSplit<T>(n: Name<T>, dot: T)
    ensures Split(Joined(n, dot), dot) == n <==> dot !in n.local
  {
    var s, m := Joined(n, dot), |n.namespace|;
    var i := LastIndex(s, dot);
    assert s[m] == dot && s[m + 1..] == n.local && s[..m] == n.namespace;
    assert i >= m;
    if i > m {
      assert n.local[i - m - 1] == s[i];
      assert |s[..i]| > |n.namespace|;
    }
  }
}
