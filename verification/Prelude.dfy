/** Shared vocabulary: optional values, machine integers, 32-byte words and a few
    facts about sequences that several modules need. */
module Prelude {

  datatype Option<+T> = None | Some(value: T)

  const U64_MAX: int := 0xFFFF_FFFF_FFFF_FFFF

  type U64 = x: int | 0 <= x <= 0xFFFF_FFFF_FFFF_FFFF

  type Byte = x: int | 0 <= x < 256

  datatype Word = Word(bytes: seq<Byte>)

  /** A hash, coin id or asset id: thirty-two bytes. */
  type Bytes32 = w: Word | |w.bytes| == 32 witness Word(seq(32, _ => 0))

  lemma ConcatAssociative<T>(a: seq<T>, b: seq<T>, c: seq<T>)
    ensures (a + b) + c == a + (b + c)
  {
  }

  /** The item at `k` taken out. */
  function Without<T>(s: seq<T>, k: nat): (r: seq<T>)
    requires k < |s|
    ensures |r| == |s| - 1
  {
    s[..k] + s[k + 1..]
  }

  lemma SplitAt<T>(s: seq<T>, k: nat)
    requires k < |s|
    ensures s == s[..k] + ([s[k]] + s[k + 1..])
  {
  }

  lemma WithoutAround<T>(before: seq<T>, x: T, after: seq<T>)
    ensures var s := before + ([x] + after);
            s[|before|] == x && Without(s, |before|) == before + after
  {
    var s := before + ([x] + after);
    assert s[..|before|] == before && s[|before| + 1..] == after;
  }

  lemma WithoutItems<T>(s: seq<T>, k: nat)
    requires k < |s|
    ensures multiset(s) == multiset(Without(s, k)) + multiset{s[k]}
    ensures multiset(Without(s, k)) == multiset(s) - multiset{s[k]}
  {
    var before, after := s[..k], s[k + 1..];
    SplitAt(s, k);
    assert multiset(s) == multiset(before) + (multiset{s[k]} + multiset(after));
    assert multiset(Without(s, k)) == multiset(before) + multiset(after);
  }

  lemma HeadItems<T>(s: seq<T>)
    requires s != []
    ensures multiset(s) == multiset{s[0]} + multiset(s[1..])
  {
    assert s == [s[0]] + s[1..];
  }

  /** Where the head of `a` sits in a reordering `b` of `a`; taking it out of both
      leaves reorderings of each other. */
  lemma HeadInReordering<T>(a: seq<T>, b: seq<T>) returns (k: nat)
    requires a != [] && multiset(a) == multiset(b)
    ensures k < |b| && b[k] == a[0]
    ensures multiset(a[1..]) == multiset(Without(b, k))
    ensures b == b[..k] + [a[0]] + b[k + 1..]
  {
    HeadItems(a);
    assert a[0] in multiset(b);
    k :| 0 <= k < |b| && b[k] == a[0];
    WithoutItems(b, k);
    SplitAt(b, k);
    ConcatAssociative(b[..k], [a[0]], b[k + 1..]);
  }

  /** Items moved from the front to the middle are the same items. */
  lemma MovedItems<T>(moved: seq<T>, rest: seq<T>, left: seq<T>, right: seq<T>)
    requires multiset(rest) == multiset(left + right)
    ensures multiset(moved + rest) == multiset(left + (moved + right))
  {
  }

  lemma SameItemsLength<T>(a: seq<T>, b: seq<T>)
    requires multiset(a) == multiset(b)
    ensures |a| == |b|
  {
    assert |multiset(a)| == |a| && |multiset(b)| == |b|;
  }

  lemma SameItemsMember<T>(a: seq<T>, b: seq<T>)
    requires multiset(a) == multiset(b)
    ensures forall x :: x in a <==> x in b
  {
    forall x ensures x in a <==> x in b {
      assert x in a <==> x in multiset(a);
      assert x in b <==> x in multiset(b);
    }
  }

  ghost predicate Distinct<T>(s: seq<T>) {
    forall i, j :: 0 <= i < j < |s| ==> s[i] != s[j]
  }

  lemma DistinctOnce<T>(s: seq<T>, x: T)
    requires Distinct(s)
    ensures multiset(s)[x] <= 1
  {
    if s != [] {
      var init := s[..|s| - 1];
      assert s == init + [s[|s| - 1]];
      DistinctOnce(init, x);
      if s[|s| - 1] == x {
        assert x !in init;
        assert x !in multiset(init);
      }
    }
  }

  lemma OnceDistinct<T>(s: seq<T>)
    requires forall x :: multiset(s)[x] <= 1
    ensures Distinct(s)
  {
    forall i, j | 0 <= i < j < |s| ensures s[i] != s[j] {
      assert s == s[..j] + [s[j]] + s[j + 1..];
      assert s[..j][i] == s[i];
      assert multiset(s)[s[j]] == multiset(s[..j])[s[j]] + 1 + multiset(s[j + 1..])[s[j]];
    }
  }

  lemma DistinctReordering<T>(a: seq<T>, b: seq<T>)
    requires Distinct(a) && multiset(a) == multiset(b)
    ensures Distinct(b)
  {
    forall x ensures multiset(b)[x] <= 1 { DistinctOnce(a, x); }
    OnceDistinct(b);
  }
}
