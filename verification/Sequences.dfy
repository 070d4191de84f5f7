/** Searching and slicing facts about sequences, shared by the byte-level and the character-level models. */
module Sequences {
  datatype Option<+T> = None | Some(value: T)

  /** Position of the first occurrence of `p` in `s`. */
  function Find<T(==)>(s: seq<T>, p: seq<T>): (r: Option<nat>)
    ensures r.Some? ==> r.value + |p| <= |s| && p <= s[r.value..]
    ensures r.Some? ==> forall j | 0 <= j < r.value :: !(p <= s[j..])
    ensures r.None? ==> forall j | 0 <= j <= |s| :: !(p <= s[j..])
  {
    if p <= s then Some(0)
    else if s == [] then None
    else
      var rest := Find(s[1..], p);
      assert forall j | 1 <= j <= |s| :: s[j..] == s[1..][j - 1..];
      if rest.Some? then Some(rest.value + 1) else None
  }

  /** Position of the last occurrence of `p` in `s`. */
  function FindLast<T(==)>(s: seq<T>, p: seq<T>): (r: Option<nat>)
    ensures r.Some? ==> r.value + |p| <= |s| && p <= s[r.value..]
    ensures r.Some? ==> forall j | r.value < j <= |s| :: !(p <= s[j..])
    ensures r.None? ==> forall j | 0 <= j <= |s| :: !(p <= s[j..])
  {
    if s == [] then (if p == [] then Some(0) else None)
    else
      var rest := FindLast(s[1..], p);
      assert forall j | 1 <= j <= |s| :: s[j..] == s[1..][j - 1..];
      if rest.Some? then Some(rest.value + 1)
      else if p <= s then Some(0)
      else None
  }

  predicate Contains<T(==)>(s: seq<T>, p: seq<T>)
    ensures Contains(s, p) <==> exists j | 0 <= j <= |s| :: p <= s[j..]
  {
    Find(s, p).Some?
  }

  lemma ContainsAtEnd<T>(a: seq<T>, p: seq<T>)
    ensures Contains(a + p, p)
  {
    assert (a + p)[|a|..] == p;
    assert p <= (a + p)[|a|..];
  }

  lemma ContainsInSlice<T>(s: seq<T>, lo: nat, hi: nat, p: seq<T>)
    requires lo <= hi <= |s|
    requires Contains(s[lo..hi], p)
    ensures Contains(s, p)
  {
    var j :| 0 <= j <= hi - lo && p <= s[lo..hi][j..];
    assert s[lo..hi][j..] <= s[lo + j..];
  }

  lemma ContainsInTail<T>(s: seq<T>, lo: nat, p: seq<T>)
    requires lo <= |s| && Contains(s[lo..], p)
    ensures Contains(s, p)
  {
    assert s[lo..|s|] == s[lo..];
    ContainsInSlice(s, lo, |s|, p);
  }

  lemma ConcatAssociates<T>(a: seq<T>, b: seq<T>, c: seq<T>)
    ensures a + (b + c) == (a + b) + c
  {}

  lemma DropOfConcat<T>(a: seq<T>, b: seq<T>, k: nat)
    requires k <= |a| + |b|
    ensures (a + b)[k..] == if k <= |a| then a[k..] + b else b[k - |a|..]
  {}

  lemma UpdateTail<T>(first: T, rest: seq<T>, i: nat, v: T)
    requires i < |rest|
    ensures ([first] + rest)[i + 1 := v] == [first] + rest[i := v]
  {}

  lemma UpdateHead<T>(s: seq<T>, v: T)
    requires |s| > 0
    ensures s[0 := v] == [v] + s[1..]
  {}
}
