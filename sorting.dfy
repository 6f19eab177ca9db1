/**
 * Sorting by a string-valued key under the natural string order, as
 * Stream.sorted(Comparator.comparing(key)) and Stream.sorted() on strings do,
 * together with the facts about permutations that the reconciliation needs.
 */
module Sorting {
  import opened Lexicographic

  ghost predicate SortedBy<T>(s: seq<T>, key: T -> string) {
    forall i, j :: 0 <= i < j < |s| ==> LessEq(key(s[i]), key(s[j]))
  }

  /** The key under which strings are sorted by their natural order. */
  function Identity(s: string): string {
    s
  }

  /** In a sorted sequence the first key is below every key. */
  lemma {:induction false} HeadIsLowest<T>(s: seq<T>, key: T -> string)
    requires SortedBy(s, key) && s != []
    ensures forall e :: e in s ==> LessEq(key(s[0]), key(e))
  {
    Reflexive(key(s[0]));
    forall e | e in s
      ensures LessEq(key(s[0]), key(e))
    {
      var j :| 0 <= j < |s| && s[j] == e;
    }
  }

  /** Putting an element below every key in front keeps a sequence sorted. */
  lemma {:induction false} PrependLowest<T>(x: T, s: seq<T>, key: T -> string)
    requires SortedBy(s, key)
    requires forall e :: e in s ==> LessEq(key(x), key(e))
    ensures SortedBy([x] + s, key)
  {
    var r := [x] + s;
    forall i, j | 0 <= i < j < |r|
      ensures LessEq(key(r[i]), key(r[j]))
    {
      assert r[j] == s[j - 1];
      if i > 0 {
        assert r[i] == s[i - 1];
      }
    }
  }

  /** A lower bound of every key in s and of x's key bounds every key of s with x added. */
  lemma BoundSurvivesInsertion<T>(bound: string, x: T, s: seq<T>, r: seq<T>, key: T -> string)
    requires multiset(r) == multiset(s) + multiset{x}
    requires LessEq(bound, key(x))
    requires forall e :: e in s ==> LessEq(bound, key(e))
    ensures forall e :: e in r ==> LessEq(bound, key(e))
  {
    forall e | e in r
      ensures LessEq(bound, key(e))
    {
      assert e in multiset(r);
      if e != x {
        assert e in multiset(s);
      }
    }
  }

  /** Inserts x into a sorted sequence in front of the first key it does not exceed. */
  function Insert<T>(x: T, s: seq<T>, key: T -> string): (r: seq<T>)
    requires SortedBy(s, key)
    ensures SortedBy(r, key)
    ensures multiset(r) == multiset(s) + multiset{x}
    decreases |s|
  {
    if s == [] then
      [x]
    else if LessEq(key(x), key(s[0])) then
      HeadIsLowest(s, key);
      assert forall e :: e in s ==> LessEq(key(x), key(e)) by {
        forall e | e in s
          ensures LessEq(key(x), key(e))
        {
          Transitive(key(x), key(s[0]), key(e));
        }
      }
      PrependLowest(x, s, key);
      [x] + s
    else
      assert s == [s[0]] + s[1..];
      var rest := Insert(x, s[1..], key);
      HeadIsLowest(s, key);
      Total(key(x), key(s[0]));
      assert forall e :: e in s[1..] ==> LessEq(key(s[0]), key(e)) by {
        forall e | e in s[1..]
          ensures LessEq(key(s[0]), key(e))
        {
          assert e in s;
        }
      }
      BoundSurvivesInsertion(key(s[0]), x, s[1..], rest, key);
      PrependLowest(s[0], rest, key);
      [s[0]] + rest
  }

  /** Insertion sort: the result is sorted by key and is a permutation of the input. */
  function SortBy<T>(s: seq<T>, key: T -> string): (r: seq<T>)
    ensures SortedBy(r, key)
    ensures multiset(r) == multiset(s)
    decreases |s|
  {
    if s == [] then
      []
    else
      assert s == [s[0]] + s[1..];
      Insert(s[0], SortBy(s[1..], key), key)
  }

  /** Dropping the head of a sequence removes one occurrence of it. */
  lemma TailMultiset<T>(s: seq<T>)
    requires s != []
    ensures multiset(s[1..]) == multiset(s) - multiset{s[0]}
  {
    assert s == [s[0]] + s[1..];
    assert multiset(s) == multiset{s[0]} + multiset(s[1..]);
  }

  /** Dropping position k of a sequence removes one occurrence of its element. */
  lemma RemoveAtMultiset<T>(t: seq<T>, k: nat)
    requires k < |t|
    ensures multiset(t[..k] + t[k + 1..]) == multiset(t) - multiset{t[k]}
  {
    assert t == t[..k] + [t[k]] + t[k + 1..];
    assert multiset(t) == multiset(t[..k]) + multiset{t[k]} + multiset(t[k + 1..]);
    assert multiset(t[..k] + t[k + 1..]) == multiset(t[..k]) + multiset(t[k + 1..]);
  }

  /** The tail of a sorted sequence is sorted. */
  lemma SortedTail<T>(s: seq<T>, key: T -> string)
    requires SortedBy(s, key) && s != []
    ensures SortedBy(s[1..], key)
  {
    forall i, j | 0 <= i < j < |s[1..]|
      ensures LessEq(key(s[1..][i]), key(s[1..][j]))
    {
      assert s[1..][i] == s[i + 1] && s[1..][j] == s[j + 1];
    }
  }

  /** Two sorted arrangements of the same strings are the same sequence. */
  lemma {:induction false} SortedStringsUnique(s: seq<string>, t: seq<string>)
    requires SortedBy(s, Identity) && SortedBy(t, Identity)
    requires multiset(s) == multiset(t)
    ensures s == t
    decreases |s|
  {
    assert |s| == |multiset(s)| == |multiset(t)| == |t|;
    if s != [] {
      assert t[0] in multiset(s) && s[0] in multiset(t);
      HeadIsLowest(s, Identity);
      HeadIsLowest(t, Identity);
      Antisymmetric(s[0], t[0]);
      TailMultiset(s);
      TailMultiset(t);
      SortedTail(s, Identity);
      SortedTail(t, Identity);
      SortedStringsUnique(s[1..], t[1..]);
    }
  }

  /** Finds the first element of s in a permutation t of s, and what is left of t without it. */
  lemma PermutationSplit<T>(s: seq<T>, t: seq<T>) returns (k: nat)
    requires s != [] && multiset(s) == multiset(t)
    ensures k < |t| && t[k] == s[0]
    ensures multiset(s[1..]) == multiset(t[..k] + t[k + 1..])
  {
    assert s[0] in multiset(t);
    k :| 0 <= k < |t| && t[k] == s[0];
    TailMultiset(s);
    RemoveAtMultiset(t, k);
  }
}
