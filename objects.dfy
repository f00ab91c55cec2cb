/** The two array operations the display applies to its pick list, with JavaScript's
    semantics: `indexOf` (identity comparison) and `splice(start, 1)`. */
module ObjectList {

  /** No entry appears twice. */
  predicate Distinct<T(==)>(s: seq<T>)
  {
    forall i, j :: 0 <= i < j < |s| ==> s[i] != s[j]
  }

  /** `s.indexOf(o)`: the first index holding `o`, or -1 when there is none. */
  function IndexOf<T(==)>(s: seq<T>, o: T): (i: int)
    ensures -1 <= i < |s|
    ensures i == -1 <==> o !in s
    ensures 0 <= i ==> s[i] == o && o !in s[..i]
  {
    if s == [] then -1
    else if s[0] == o then 0
    else
      var j := IndexOf(s[1..], o);
      assert j >= 0 ==> s[..j + 1] == [s[0]] + s[1..][..j];
      if j == -1 then -1 else j + 1
  }

  /** `s.splice(start, 1)`, the array it leaves: a negative start counts back from the end
      (and stops at index 0); a start at or past the end removes nothing. */
  function SpliceOne<T>(s: seq<T>, start: int): seq<T>
  {
    var k := if start < 0 then (if |s| + start < 0 then 0 else |s| + start) else start;
    if k < |s| then s[..k] + s[k + 1..] else s
  }

  /** `s.splice(s.indexOf(o), 1)`. */
  function RemoveObject<T(==)>(s: seq<T>, o: T): seq<T>
  {
    SpliceOne(s, IndexOf(s, o))
  }

  /** Removing an object that is in the list takes out exactly its first occurrence: putting
      it back at that index restores the list, so the other entries keep their order. */
  lemma RemovePresent<T>(s: seq<T>, o: T)
    requires o in s
    ensures |RemoveObject(s, o)| == |s| - 1
    ensures var i := IndexOf(s, o);
            RemoveObject(s, o)[..i] + [o] + RemoveObject(s, o)[i..] == s
    ensures multiset(RemoveObject(s, o)) + multiset{o} == multiset(s)
  {
    var i := IndexOf(s, o);
    var r := RemoveObject(s, o);
    SplitAt(s, i);
    assert r == s[..i] + s[i + 1..];
    assert r[..i] == s[..i] && r[i..] == s[i + 1..];
  }

  lemma SplitAt<T>(s: seq<T>, i: int)
    requires 0 <= i < |s|
    ensures s == s[..i] + [s[i]] + s[i + 1..]
    ensures multiset(s) == multiset(s[..i] + s[i + 1..]) + multiset{s[i]}
  {
    assert s == s[..i] + [s[i]] + s[i + 1..];
    assert s == s[..i] + ([s[i]] + s[i + 1..]);
  }

  /** In a list without repetitions the removed object is gone afterwards. */
  lemma RemovedIsGone<T>(s: seq<T>, o: T)
    requires Distinct(s)
    requires o in s
    ensures o !in RemoveObject(s, o)
    ensures Distinct(RemoveObject(s, o))
  {
    var i := IndexOf(s, o);
    var r := RemoveObject(s, o);
    assert r == s[..i] + s[i + 1..];
    forall k | 0 <= k < |r|
      ensures r[k] == (if k < i then s[k] else s[k + 1])
    {
    }
  }

  /** Removing an object other than the first entry leaves the first entry in place. */
  lemma RemoveKeepsHead<T>(s: seq<T>, o: T)
    requires o in s && s[0] != o
    ensures |RemoveObject(s, o)| > 0 && RemoveObject(s, o)[0] == s[0]
  {
    var i := IndexOf(s, o);
    assert i > 0;
  }

  /** The hazard of `splice(indexOf(o), 1)`: when `o` is absent, `indexOf` gives -1 and the
      last entry is removed instead. */
  lemma RemoveAbsentDropsLast<T>(s: seq<T>, o: T)
    requires o !in s
    ensures RemoveObject(s, o) == if s == [] then [] else s[..|s| - 1]
  {
    if s != [] {
      assert s[..|s| - 1] + s[|s|..] == s[..|s| - 1];
    }
  }
}
