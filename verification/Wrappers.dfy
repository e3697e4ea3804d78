/** What several modules share. */
module Wrappers {
  datatype Option<T> = None | Some(value: T)

  const TWO64 := 0x1_0000_0000_0000_0000

  /** No element occurs twice. */
  ghost predicate NoDup<T(!new)>(s: seq<T>) { forall i, j :: 0 <= i < j < |s| ==> s[i] != s[j] }

  lemma {:induction false} OnceEach<T(!new)>(s: seq<T>, x: T)
    requires NoDup(s)
    ensures multiset(s)[x] == if x in s then 1 else 0
    decreases |s|
  {
    if s != [] {
      assert s == [s[0]] + s[1..];
      assert s[0] !in s[1..];
      OnceEach(s[1..], x);
    }
  }

  lemma TwiceInMultiset<T(!new)>(s: seq<T>, i: nat, k: nat)
    requires i < k < |s| && s[i] == s[k]
    ensures multiset(s)[s[i]] >= 2
  {
    assert s == s[..k] + ([s[k]] + s[k + 1..]);
    assert s[..k][i] in multiset(s[..k]);
  }

  lemma TailMultiset<T>(s: seq<T>)
    requires s != []
    ensures multiset(s[1..]) == multiset(s) - multiset{s[0]}
  {
    assert s == [s[0]] + s[1..];
  }

  // ----- sorted sequences -----

  ghost predicate Ordered<T(!new)>(le: (T, T) -> bool, s: seq<T>) { forall i, j :: 0 <= i < j < |s| ==> le(s[i], s[j]) }

  ghost predicate Antisymmetric<T(!new)>(le: (T, T) -> bool) { forall x, y :: le(x, y) && le(y, x) ==> x == y }

  lemma OrderedHead<T(!new)>(le: (T, T) -> bool, s: seq<T>, t: seq<T>)
    requires Antisymmetric(le) && Ordered(le, s) && Ordered(le, t) && s != [] && t != [] && s[0] in t && t[0] in s
    ensures s[0] == t[0]
  {
    var i :| 0 <= i < |t| && t[i] == s[0];
    var j :| 0 <= j < |s| && s[j] == t[0];
  }

  /** There is only one way to sort. */
  lemma {:induction false} OrderedIsUnique<T(!new)>(le: (T, T) -> bool, s: seq<T>, t: seq<T>)
    requires Antisymmetric(le) && Ordered(le, s) && Ordered(le, t) && multiset(s) == multiset(t)
    ensures s == t
    decreases |s|
  {
    hide Antisymmetric;
    assert |s| == |multiset(s)| == |multiset(t)| == |t|;
    if s != [] {
      assert s[0] in multiset(t) && t[0] in multiset(s);
      OrderedHead(le, s, t);
      TailMultiset(s);
      TailMultiset(t);
      OrderedIsUnique(le, s[1..], t[1..]);
    }
  }
}
