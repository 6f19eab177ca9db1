/**
 * The natural ordering of strings (String.compareTo): two strings are compared
 * character by character, the first differing character decides, and a proper
 * prefix comes before the longer string.  LessEq(a, b) stands for
 * "a.compareTo(b) <= 0".
 */
module Lexicographic {

  predicate LessEq(a: string, b: string)
    decreases |a|
  {
    |a| == 0 || (|b| > 0 && (a[0] < b[0] || (a[0] == b[0] && LessEq(a[1..], b[1..]))))
  }

  /** The documented definition: a is a prefix of b, or a has the smaller
      character at the first index where the two differ. */
  ghost predicate PrefixOrSmallerAtFirstDifference(a: string, b: string) {
    || (|a| <= |b| && a == b[..|a|])
    || (exists k :: 0 <= k < |a| && k < |b| && a[..k] == b[..k] && a[k] < b[k])
  }

  /** The recursive comparison agrees with the documented definition. */
  lemma {:induction false} LessEqMeaning(a: string, b: string)
    ensures LessEq(a, b) <==> PrefixOrSmallerAtFirstDifference(a, b)
    decreases |a|
  {
    if |a| == 0 {
      assert a == b[..0];
    } else if |b| == 0 {
    } else if a[0] < b[0] {
      assert a[..0] == b[..0];
    } else if a[0] > b[0] {
      GreaterHeadIsNotBelow(a, b);
    } else {
      LessEqMeaning(a[1..], b[1..]);
      CommonHead(a, b);
    }
  }

  lemma GreaterHeadIsNotBelow(a: string, b: string)
    requires |a| > 0 && |b| > 0 && a[0] > b[0]
    ensures !PrefixOrSmallerAtFirstDifference(a, b)
  {
    forall k | 0 < k <= |a| && k <= |b|
      ensures a[..k] != b[..k]
    {
      assert a[..k][0] != b[..k][0];
    }
  }

  /** Dropping a common first character does not change the comparison. */
  lemma CommonHead(a: string, b: string)
    requires |a| > 0 && |b| > 0 && a[0] == b[0]
    ensures PrefixOrSmallerAtFirstDifference(a, b) <==> PrefixOrSmallerAtFirstDifference(a[1..], b[1..])
  {
    CommonHeadPrefix(a, b);
    CommonHeadDifference(a, b);
  }

  lemma CommonHeadPrefix(a: string, b: string)
    requires |a| > 0 && |b| > 0 && a[0] == b[0]
    ensures (|a| <= |b| && a == b[..|a|]) <==> (|a[1..]| <= |b[1..]| && a[1..] == b[1..][..|a[1..]|])
  {
    var a', b' := a[1..], b[1..];
    if |a| <= |b| && a == b[..|a|] {
      assert a' == b[..|a|][1..] == b'[..|a'|];
    }
    if |a'| <= |b'| && a' == b'[..|a'|] {
      assert a == [a[0]] + a';
      assert b[..|a|] == [b[0]] + b'[..|a'|];
    }
  }

  /** A first difference after a common head is a first difference of the tails, one position earlier. */
  lemma DifferenceInTails(a: string, b: string, k: nat)
    requires 0 < k < |a| && k < |b| && a[..k] == b[..k] && a[k] < b[k]
    ensures a[1..][..k - 1] == b[1..][..k - 1] && a[1..][k - 1] < b[1..][k - 1]
  {
    assert a[1..][..k - 1] == a[..k][1..] && b[1..][..k - 1] == b[..k][1..];
  }

  /** A first difference of the tails is one of the whole strings, one position later, when the heads agree. */
  lemma DifferenceAfterHead(a: string, b: string, k: nat)
    requires |a| > 0 && |b| > 0 && a[0] == b[0]
    requires k < |a| - 1 && k < |b| - 1 && a[1..][..k] == b[1..][..k] && a[1..][k] < b[1..][k]
    ensures a[..k + 1] == b[..k + 1] && a[k + 1] < b[k + 1]
  {
    assert a[..k + 1] == [a[0]] + a[1..][..k];
    assert b[..k + 1] == [b[0]] + b[1..][..k];
  }

  lemma CommonHeadDifference(a: string, b: string)
    requires |a| > 0 && |b| > 0 && a[0] == b[0]
    ensures (exists k :: 0 <= k < |a| && k < |b| && a[..k] == b[..k] && a[k] < b[k])
        <==> (exists k :: 0 <= k < |a[1..]| && k < |b[1..]| && a[1..][..k] == b[1..][..k] && a[1..][k] < b[1..][k])
  {
    var a', b' := a[1..], b[1..];
    if exists k :: 0 <= k < |a| && k < |b| && a[..k] == b[..k] && a[k] < b[k] {
      var k :| 0 <= k < |a| && k < |b| && a[..k] == b[..k] && a[k] < b[k];
      assert k != 0;
      DifferenceInTails(a, b, k);
    }
    if exists k :: 0 <= k < |a'| && k < |b'| && a'[..k] == b'[..k] && a'[k] < b'[k] {
      var k :| 0 <= k < |a'| && k < |b'| && a'[..k] == b'[..k] && a'[k] < b'[k];
      DifferenceAfterHead(a, b, k);
    }
  }

  lemma {:induction false} Reflexive(a: string)
    ensures LessEq(a, a)
    decreases |a|
  {
    if |a| > 0 {
      Reflexive(a[1..]);
    }
  }

  lemma {:induction false} Total(a: string, b: string)
    ensures LessEq(a, b) || LessEq(b, a)
    decreases |a|
  {
    if |a| > 0 && |b| > 0 && a[0] == b[0] {
      Total(a[1..], b[1..]);
    }
  }

  lemma {:induction false} Transitive(a: string, b: string, c: string)
    requires LessEq(a, b) && LessEq(b, c)
    ensures LessEq(a, c)
    decreases |a|
  {
    if |a| > 0 && a[0] == b[0] && b[0] == c[0] {
      Transitive(a[1..], b[1..], c[1..]);
    }
  }

  lemma {:induction false} Antisymmetric(a: string, b: string)
    requires LessEq(a, b) && LessEq(b, a)
    ensures a == b
    decreases |a|
  {
    if |a| > 0 {
      Antisymmetric(a[1..], b[1..]);
      assert a == [a[0]] + a[1..];
      assert b == [b[0]] + b[1..];
    }
  }
}
