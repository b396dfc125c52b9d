/** The arithmetic of a split: pairwise distinct positive amounts that add up exactly. */
module Splitting {
  import opened Prelude
  import opened Clvm

  function SumOf(amounts: seq<nat>): nat {
    if amounts == [] then 0 else amounts[0] + SumOf(amounts[1..])
  }

  lemma {:induction false} SumOfAppend(amounts: seq<nat>, last: nat)
    ensures SumOf(amounts + [last]) == SumOf(amounts) + last
  {
    if amounts != [] {
      assert (amounts + [last])[1..] == amounts[1..] + [last];
      SumOfAppend(amounts[1..], last);
    }
  }

  /** 0 + 1 + ... + (n - 1). */
  function Triangle(n: nat): nat {
    if n == 0 then 0 else Triangle(n - 1) + (n - 1)
  }

  lemma {:induction false} TriangleHalves(n: nat)
    ensures 2 * Triangle(n) == n * (n - 1) && n * (n - 1) / 2 == Triangle(n)
  {
    if n > 0 {
      TriangleHalves(n - 1);
      assert n * (n - 1) == (n - 1) * (n - 2) + 2 * (n - 1);
    }
  }

  ghost predicate StrictlyIncreasing(amounts: seq<nat>) {
    forall i, j :: 0 <= i < j < |amounts| ==> amounts[i] < amounts[j]
  }

  /** `n` copies of `base`, summed. */
  function Times(n: nat, base: nat): nat {
    if n == 0 then 0 else Times(n - 1, base) + base
  }

  lemma {:induction false} TimesIsProduct(n: nat, base: nat)
    ensures Times(n, base) == n * base
  {
    if n > 0 {
      TimesIsProduct(n - 1, base);
    }
  }

  /** Staggered amounts exist exactly when the value covers the smallest strictly increasing
      sequence of positive amounts; then there are `parts` of them, each one more than the last but for the
      indivisible rest, which joins the largest; none is lost, and the whole computation stays within 64 bits. */
  method StaggeredAmounts(divisible: U64, parts: U64) returns (r: Option<seq<U64>>)
    ensures r.Some? <==> parts >= 1 && parts * (parts - 1) <= U64_MAX && divisible >= parts + Triangle(parts)
    ensures r.Some? ==>
              && |r.value| == parts
              && StrictlyIncreasing(r.value)
              && (forall i :: 0 <= i < parts ==> r.value[i] > 0)
              && SumOf(r.value) == divisible
              && (forall i, j :: 0 <= i < j == i + 1 < parts - 1 ==> r.value[j] - r.value[i] == 1)
              && (parts >= 2 ==> 1 <= r.value[parts - 1] - r.value[parts - 2] <= parts)
  {
    if parts == 0 { return None; }
    TriangleHalves(parts);
    if parts * (parts - 1) > U64_MAX { return None; }
    var stagger := parts * (parts - 1) / 2;
    var floor := parts + stagger;
    if floor > U64_MAX || divisible < floor { return None; }
    var spread := divisible - stagger;
    var base, remainder := spread / parts, spread % parts;
    BaseIsPositive(spread, parts);
    PartWithin(spread, parts, parts - 1);
    var amounts := Rising(base, parts);
    // The remainder joins the last, already largest, amount.
    amounts := amounts[..parts - 1] + [amounts[parts - 1] + remainder];
    return Some(amounts);
  }

  /** `base, base + 1, ...`: all but the last add up to what is left once the last is taken. */
  method Rising(base: nat, parts: nat) returns (amounts: seq<U64>)
    requires parts >= 1 && base + parts - 1 <= U64_MAX
    ensures |amounts| == parts && forall i :: 0 <= i < parts ==> amounts[i] == base + i
    ensures forall last ::
            SumOf(amounts[..parts - 1] + [last]) == parts * base + Triangle(parts) - (base + parts - 1) + last
  {
    amounts := [];
    for index := 0 to parts
      invariant |amounts| == index
      invariant forall i :: 0 <= i < index ==> amounts[i] == base + i
      invariant SumOf(amounts) == Times(index, base) + Triangle(index)
    {
      SumOfAppend(amounts, base + index);
      amounts := amounts + [base + index];
    }
    TimesIsProduct(parts, base);
    assert amounts == amounts[..parts - 1] + [amounts[parts - 1]];
    SumOfAppend(amounts[..parts - 1], amounts[parts - 1]);
    forall last ensures SumOf(amounts[..parts - 1] + [last]) == SumOf(amounts) - amounts[parts - 1] + last {
      SumOfAppend(amounts[..parts - 1], last);
    }
  }

  lemma BaseIsPositive(spread: nat, parts: nat)
    requires spread >= parts >= 1
    ensures spread / parts >= 1 && parts * (spread / parts) + spread % parts == spread
  {
  }

  lemma {:induction false} ProductAtLeastSum(a: nat, b: nat)
    requires a >= 1 && b >= 1
    ensures a * b >= a + b - 1
  {
    if b > 1 {
      ProductAtLeastSum(a, b - 1);
      assert a * b == a * (b - 1) + a;
    }
  }

  lemma PartWithin(spread: U64, parts: nat, index: nat)
    requires 1 <= parts <= spread && index < parts
    ensures spread / parts + index <= spread
  {
    BaseIsPositive(spread, parts);
    ProductAtLeastSum(parts, spread / parts);
  }

  lemma ProductMonotone(a: nat, b: nat, c: nat, d: nat)
    requires a <= c && b <= d
    ensures a * b <= c * d
  {
    assert a * b <= a * d;
    assert a * d <= c * d;
  }

  /** With a 32-bit part count the product never overflows, so the value alone decides. */
  lemma PartsNeverOverflow(parts: nat)
    requires 1 <= parts < 0x1_0000_0000
    ensures parts * (parts - 1) <= U64_MAX
  {
    ProductMonotone(parts, parts - 1, 0xFFFF_FFFF, 0xFFFF_FFFF);
  }
}
