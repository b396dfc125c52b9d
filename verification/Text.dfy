/** Text forms: lower-case hex, its spelling variants, sorted comparison, and decimal amounts. */
module Text {
  import opened Prelude

  // ---- hex ----

  function HexDigit(n: int): char
    requires 0 <= n < 16
  {
    if n < 10 then '0' + n as char else 'a' + (n - 10) as char
  }

  /** Lower-case hex, two digits a byte. */
  function Hex(bytes: seq<Byte>): string {
    if bytes == [] then "" else [HexDigit(bytes[0] / 16), HexDigit(bytes[0] % 16)] + Hex(bytes[1..])
  }

  predicate IsLowerHex(s: string) {
    forall i :: 0 <= i < |s| ==> '0' <= s[i] <= '9' || 'a' <= s[i] <= 'f'
  }

  function AsciiLower(s: string): string {
    if s == "" then ""
    else [if 'A' <= s[0] <= 'Z' then s[0] - 'A' + 'a' else s[0]] + AsciiLower(s[1..])
  }

  /** One leading `0x` removed, if there is one. */
  function StripPrefix(s: string): string {
    if |s| >= 2 && s[0] == '0' && s[1] == 'x' then s[2..] else s
  }

  /** Every leading `0x` removed. */
  function TrimPrefixes(s: string): string {
    if |s| >= 2 && s[0] == '0' && s[1] == 'x' then TrimPrefixes(s[2..]) else s
  }

  lemma {:induction false} HexIsLower(bytes: seq<Byte>)
    ensures IsLowerHex(Hex(bytes)) && |Hex(bytes)| == 2 * |bytes|
  {
    if bytes != [] {
      HexIsLower(bytes[1..]);
    }
  }

  lemma {:induction false} HexInjective(a: seq<Byte>, b: seq<Byte>)
    requires Hex(a) == Hex(b)
    ensures a == b
  {
    HexIsLower(a);
    HexIsLower(b);
    if a != [] {
      assert Hex(a)[0] == Hex(b)[0] && Hex(a)[1] == Hex(b)[1];
      assert Hex(a[1..]) == Hex(a)[2..] && Hex(b[1..]) == Hex(b)[2..];
      HexInjective(a[1..], b[1..]);
      assert a[0] == 16 * (a[0] / 16) + a[0] % 16 && b[0] == 16 * (b[0] / 16) + b[0] % 16;
      assert a == [a[0]] + a[1..] && b == [b[0]] + b[1..];
    }
  }

  /** Lower-case hex is its own normal form under every spelling rule. */
  lemma HexIsNormal(bytes: seq<Byte>)
    ensures StripPrefix(Hex(bytes)) == Hex(bytes)
    ensures AsciiLower(TrimPrefixes(Hex(bytes))) == Hex(bytes)
  {
    HexIsLower(bytes);
    var text := Hex(bytes);
    LowerIsNormal(text);
  }

  lemma {:induction false} LowerEach(s: string)
    ensures |AsciiLower(s)| == |s|
    ensures forall i :: 0 <= i < |s| ==>
              AsciiLower(s)[i] == if 'A' <= s[i] <= 'Z' then s[i] - 'A' + 'a' else s[i]
  {
    if s != "" {
      LowerEach(s[1..]);
    }
  }

  lemma {:induction false} LowerIsNormal(s: string)
    requires IsLowerHex(s)
    ensures AsciiLower(s) == s
  {
    if s != "" {
      LowerIsNormal(s[1..]);
    }
  }

  // ---- sorted comparison ----

  ghost predicate Antisymmetric<T(!new)>(le: (T, T) -> bool) {
    forall x, y :: le(x, y) && le(y, x) ==> x == y
  }

  ghost predicate Preorder<T(!new)>(le: (T, T) -> bool) {
    && (forall x, y :: le(x, y) || le(y, x))
    && (forall x, y, z :: le(x, y) && le(y, z) ==> le(x, z))
  }

  ghost predicate TotalOrder<T(!new)>(le: (T, T) -> bool) {
    Preorder(le) && Antisymmetric(le)
  }

  /** Dictionary order. */
  predicate LexLe(a: seq<int>, b: seq<int>) {
    a == [] || (b != [] && (a[0] < b[0] || (a[0] == b[0] && LexLe(a[1..], b[1..]))))
  }

  lemma {:induction false} LexTotal(a: seq<int>, b: seq<int>)
    ensures LexLe(a, b) || LexLe(b, a)
    ensures LexLe(a, b) && LexLe(b, a) ==> a == b
  {
    if a != [] && b != [] {
      LexTotal(a[1..], b[1..]);
      assert a == [a[0]] + a[1..] && b == [b[0]] + b[1..];
    }
  }

  /** One list comes first when it is a prefix of the other or smaller where they first differ. */
  lemma {:induction false} LexReads(a: seq<int>, b: seq<int>)
    ensures LexLe(a, b) <==> a <= b || SmallerWhereTheyDiffer(a, b)
  {
    if a != [] && b != [] {
      DifferAhead(a, b);
      if a[0] == b[0] {
        LexReads(a[1..], b[1..]);
        assert a == [a[0]] + a[1..] && b == [b[0]] + b[1..];
      }
    }
  }

  predicate SmallerWhereTheyDiffer(a: seq<int>, b: seq<int>) {
    exists k :: 0 <= k < |a| && k < |b| && a[..k] == b[..k] && a[k] < b[k]
  }

  lemma DifferAhead(a: seq<int>, b: seq<int>)
    requires a != [] && b != []
    ensures SmallerWhereTheyDiffer(a, b) <==>
            a[0] < b[0] || (a[0] == b[0] && SmallerWhereTheyDiffer(a[1..], b[1..]))
  {
    if k :| 0 <= k < |a| && k < |b| && a[..k] == b[..k] && a[k] < b[k] {
      if k > 0 {
        assert a[0] == a[..k][0] && b[0] == b[..k][0];
        assert a[1..][..k - 1] == a[..k][1..] && b[1..][..k - 1] == b[..k][1..];
        assert a[1..][k - 1] < b[1..][k - 1];
      }
    }
    if a[0] < b[0] {
      assert a[..0] == b[..0];
    }
    if k :| 0 <= k < |a[1..]| && k < |b[1..]| && a[1..][..k] == b[1..][..k] && a[1..][k] < b[1..][k] {
      assert a[..k + 1] == [a[0]] + a[1..][..k] && b[..k + 1] == [b[0]] + b[1..][..k];
      assert a[k + 1] < b[k + 1];
    }
  }

  lemma {:induction false} LexTransitive(a: seq<int>, b: seq<int>, c: seq<int>)
    requires LexLe(a, b) && LexLe(b, c)
    ensures LexLe(a, c)
  {
    if a != [] && b != [] && c != [] {
      if a[0] == b[0] == c[0] {
        LexTransitive(a[1..], b[1..], c[1..]);
      }
    }
  }

  function Insert<T>(x: T, s: seq<T>, le: (T, T) -> bool): seq<T> {
    if s == [] || le(x, s[0]) then [x] + s else [s[0]] + Insert(x, s[1..], le)
  }

  function Sorted<T>(s: seq<T>, le: (T, T) -> bool): seq<T> {
    if s == [] then [] else Insert(s[0], Sorted(s[1..], le), le)
  }

  ghost predicate LowerBound<T>(x: T, s: seq<T>, le: (T, T) -> bool) {
    forall y :: y in s ==> le(x, y)
  }

  ghost predicate Ascending<T>(s: seq<T>, le: (T, T) -> bool) {
    s == [] || (LowerBound(s[0], s[1..], le) && Ascending(s[1..], le))
  }

  lemma {:induction false} AscendingAt<T>(s: seq<T>, le: (T, T) -> bool, i: nat, j: nat)
    requires Ascending(s, le) && i < j < |s|
    ensures le(s[i], s[j])
  {
    if i == 0 {
      assert s[j] in s[1..];
    } else {
      AscendingAt(s[1..], le, i - 1, j - 1);
    }
  }

  lemma {:induction false} InsertKeepsItems<T>(x: T, s: seq<T>, le: (T, T) -> bool)
    ensures multiset(Insert(x, s, le)) == multiset(s) + multiset{x}
  {
    if s != [] && !le(x, s[0]) {
      InsertKeepsItems(x, s[1..], le);
      assert s == [s[0]] + s[1..];
    }
  }

  lemma {:induction false} InsertSorts<T(!new)>(x: T, s: seq<T>, le: (T, T) -> bool)
    requires Preorder(le) && Ascending(s, le)
    ensures Ascending(Insert(x, s, le), le)
  {
    if s == [] || le(x, s[0]) {
      assert ([x] + s)[1..] == s;
      forall y | y in s ensures le(x, y) {
        assert y == s[0] || y in s[1..];
      }
    } else {
      var rest := Insert(x, s[1..], le);
      InsertSorts(x, s[1..], le);
      InsertKeepsItems(x, s[1..], le);
      assert ([s[0]] + rest)[1..] == rest;
      forall y | y in rest ensures le(s[0], y) {
        assert y in multiset(rest);
      }
    }
  }

  lemma {:induction false} SortKeepsItems<T>(s: seq<T>, le: (T, T) -> bool)
    ensures multiset(Sorted(s, le)) == multiset(s)
  {
    if s != [] {
      SortKeepsItems(s[1..], le);
      InsertKeepsItems(s[0], Sorted(s[1..], le), le);
      assert s == [s[0]] + s[1..];
    }
  }

  lemma {:induction false} SortAscends<T(!new)>(s: seq<T>, le: (T, T) -> bool)
    requires Preorder(le)
    ensures Ascending(Sorted(s, le), le)
  {
    if s != [] {
      SortAscends(s[1..], le);
      InsertSorts(s[0], Sorted(s[1..], le), le);
    }
  }

  lemma SortSorts<T(!new)>(s: seq<T>, le: (T, T) -> bool)
    requires Preorder(le)
    ensures Ascending(Sorted(s, le), le) && multiset(Sorted(s, le)) == multiset(s)
  {
    SortAscends(s, le);
    SortKeepsItems(s, le);
  }

  lemma {:induction false} AscendingUnique<T(!new)>(a: seq<T>, b: seq<T>, le: (T, T) -> bool)
    requires Antisymmetric(le) && Ascending(a, le) && Ascending(b, le) && multiset(a) == multiset(b)
    ensures a == b
  {
    SameItemsLength(a, b);
    if a != [] {
      SameItemsMember(a, b);
      SameLeast(a, b, le);
      MultisetTail(a);
      MultisetTail(b);
      AscendingUnique(a[1..], b[1..], le);
    }
  }

  lemma MultisetTail<T>(s: seq<T>)
    requires s != []
    ensures s == [s[0]] + s[1..] && multiset(s[1..]) == multiset(s) - multiset{s[0]}
  {
    assert s == [s[0]] + s[1..];
  }

  lemma MemberSplit<T>(s: seq<T>, x: T)
    requires x in s
    ensures x == s[0] || x in s[1..]
  {
  }

  lemma SameLeast<T(!new)>(a: seq<T>, b: seq<T>, le: (T, T) -> bool)
    requires a != [] && b != [] && Antisymmetric(le) && Ascending(a, le) && Ascending(b, le)
    requires a[0] in b && b[0] in a
    ensures a[0] == b[0]
  {
    MemberSplit(a, b[0]);
    MemberSplit(b, a[0]);
  }

  /** Comparing two lists after sorting both compares them as multisets. */
  lemma SortedComparison<T(!new)>(a: seq<T>, b: seq<T>, le: (T, T) -> bool)
    requires TotalOrder(le)
    ensures Sorted(a, le) == Sorted(b, le) <==> multiset(a) == multiset(b)
  {
    SortSorts(a, le);
    SortSorts(b, le);
    if multiset(a) == multiset(b) {
      AscendingUnique(Sorted(a, le), Sorted(b, le), le);
    }
  }

  // ---- decimal amounts ----

  const MOJOS_PER_XCH: int := 1_000_000_000_000

  function Digit(n: int): char
    requires 0 <= n < 10
  {
    '0' + n as char
  }

  /** A natural in decimal, without leading zeros. */
  function Decimal(n: nat): string {
    if n < 10 then [Digit(n)] else Decimal(n / 10) + [Digit(n % 10)]
  }

  function Zeros(n: nat): string {
    if n == 0 then "" else "0" + Zeros(n - 1)
  }

  /** A natural in decimal, padded on the left with zeros to a width. */
  function Padded(n: nat, width: nat): string {
    var text := Decimal(n);
    if |text| < width then Zeros(width - |text|) + text else text
  }

  function TrimZeros(s: string): string {
    if s != "" && s[|s| - 1] == '0' then TrimZeros(s[..|s| - 1]) else s
  }

  function FractionText(frac: nat): string {
    TrimZeros(Padded(frac, 12))
  }

  /** An amount as the confirm screen shows it: XCH in decimal, a CAT in raw base units. */
  function RenderAmount(mojos: U64, isXch: bool): string {
    if !isXch then Decimal(mojos) else RenderXch(mojos / MOJOS_PER_XCH, mojos % MOJOS_PER_XCH)
  }

  function RenderXch(whole: nat, frac: nat): string {
    if frac == 0 then Decimal(whole) else Decimal(whole) + "." + FractionText(frac)
  }

  predicate IsDigits(s: string) {
    forall i :: 0 <= i < |s| ==> '0' <= s[i] <= '9'
  }

  function ReadDigits(s: string): nat
    requires IsDigits(s)
  {
    if s == "" then 0 else 10 * ReadDigits(s[..|s| - 1]) + (s[|s| - 1] - '0') as int
  }

  /** `n` times ten to the `places`. */
  function Shift(n: nat, places: nat): nat {
    if places == 0 then n else 10 * Shift(n, places - 1)
  }

  function Pow10(n: nat): nat {
    if n == 0 then 1 else 10 * Pow10(n - 1)
  }

  lemma {:induction false} DecimalReads(n: nat)
    ensures Decimal(n) != "" && IsDigits(Decimal(n)) && ReadDigits(Decimal(n)) == n
  {
    if n >= 10 {
      DecimalReads(n / 10);
      assert Decimal(n)[..|Decimal(n)| - 1] == Decimal(n / 10);
    }
  }

  lemma {:induction false} DecimalLength(n: nat, width: nat)
    requires n < Pow10(width) && width > 0
    ensures |Decimal(n)| <= width
  {
    if n >= 10 {
      assert Pow10(width) == 10 * Pow10(width - 1);
      assert Pow10(0) == 1;
      DecimalLength(n / 10, width - 1);
    }
  }

  lemma {:induction false} ZeroAhead(s: string)
    requires IsDigits(s)
    ensures IsDigits("0" + s) && ReadDigits("0" + s) == ReadDigits(s)
  {
    var longer := "0" + s;
    if s == "" {
      assert longer[..|longer| - 1] == "";
    } else {
      assert longer[..|longer| - 1] == "0" + s[..|s| - 1];
      ZeroAhead(s[..|s| - 1]);
    }
  }

  lemma {:induction false} ZerosRead(k: nat, s: string)
    requires IsDigits(s)
    ensures |Zeros(k)| == k && IsDigits(Zeros(k) + s) && ReadDigits(Zeros(k) + s) == ReadDigits(s)
  {
    if k == 0 {
      assert Zeros(0) + s == s;
    } else {
      ZerosRead(k - 1, s);
      assert Zeros(k) + s == "0" + (Zeros(k - 1) + s);
      ZeroAhead(Zeros(k - 1) + s);
    }
  }

  lemma PaddedReads(n: nat, width: nat)
    requires n < Pow10(width) && width > 0
    ensures |Padded(n, width)| == width && IsDigits(Padded(n, width)) && ReadDigits(Padded(n, width)) == n
  {
    DecimalReads(n);
    DecimalLength(n, width);
    ZerosRead(width - |Decimal(n)|, Decimal(n));
  }

  /** Dropping trailing zeros divides by exactly the power of ten they stood for. */
  lemma {:induction false} TrimReads(s: string)
    requires IsDigits(s)
    ensures TrimZeros(s) <= s && IsDigits(TrimZeros(s))
    ensures ReadDigits(s) == Shift(ReadDigits(TrimZeros(s)), |s| - |TrimZeros(s)|)
  {
    if s != "" && s[|s| - 1] == '0' {
      TrimReads(s[..|s| - 1]);
    }
  }

  function DotAt(s: string): (k: nat)
    ensures k <= |s| && (k < |s| ==> s[k] == '.')
    ensures forall i :: 0 <= i < k ==> s[i] != '.'
  {
    if s == "" || s[0] == '.' then 0 else 1 + DotAt(s[1..])
  }

  function MojosOf(whole: string, frac: string): nat
    requires IsDigits(whole) && IsDigits(frac) && |frac| <= 12
  {
    ReadDigits(whole) * MOJOS_PER_XCH + Shift(ReadDigits(frac), 12 - |frac|)
  }

  /** The text read back as a decimal number of XCH, in mojos; `None` when it is not one with at
      most twelve decimals. */
  function ReadXch(s: string): Option<nat> {
    var k := DotAt(s);
    var whole, frac := s[..k], if k < |s| then s[k + 1..] else "";
    if whole == "" || !IsDigits(whole) || !IsDigits(frac) || |frac| > 12 then None
    else Some(MojosOf(whole, frac))
  }

  /** Printing loses nothing: the XCH text of any amount reads back as that amount. */
  lemma RenderedAmountReadsBack(mojos: U64, text: string)
    requires text == RenderAmount(mojos, true)
    ensures ReadXch(text) == Some(mojos)
  {
    RenderedXchReadsBack(mojos / MOJOS_PER_XCH, mojos % MOJOS_PER_XCH);
  }

  lemma RenderedXchReadsBack(whole: nat, frac: nat)
    requires frac < MOJOS_PER_XCH
    ensures ReadXch(RenderXch(whole, frac)) == Some(whole * MOJOS_PER_XCH + frac)
  {
    if frac == 0 {
      RenderedWhole(whole);
    } else {
      RenderedFraction(whole, frac);
    }
  }

  lemma RenderedWhole(whole: nat)
    ensures ReadXch(Decimal(whole)) == Some(whole * MOJOS_PER_XCH)
  {
    DecimalReads(whole);
    WholeReads(Decimal(whole));
  }

  lemma RenderedFraction(whole: nat, frac: nat)
    requires frac < MOJOS_PER_XCH
    ensures ReadXch(Decimal(whole) + "." + FractionText(frac)) == Some(whole * MOJOS_PER_XCH + frac)
  {
    DecimalReads(whole);
    FractionReads(frac);
    PointReads(Decimal(whole), FractionText(frac), whole, frac);
  }

  lemma {:induction false} ShiftZero(places: nat)
    ensures Shift(0, places) == 0
  {
    if places > 0 {
      ShiftZero(places - 1);
    }
  }

  lemma FractionReads(frac: nat)
    requires frac < MOJOS_PER_XCH
    ensures var text := FractionText(frac);
            IsDigits(text) && |text| <= 12 && Shift(ReadDigits(text), 12 - |text|) == frac
  {
    TwelveDigits();
    PaddedReads(frac, 12);
    TrimReads(Padded(frac, 12));
  }

  lemma WholeReads(whole: string)
    requires whole != "" && IsDigits(whole)
    ensures ReadXch(whole) == Some(ReadDigits(whole) * MOJOS_PER_XCH)
  {
    NoDotInDigits(whole);
    NothingPastThePoint(whole);
    assert whole[..DotAt(whole)] == whole;
  }

  lemma NothingPastThePoint(whole: string)
    requires IsDigits(whole)
    ensures MojosOf(whole, "") == ReadDigits(whole) * MOJOS_PER_XCH
  {
    ShiftZero(12);
    assert ReadDigits("") == 0;
  }

  lemma PointReads(whole: string, frac: string, n: nat, m: nat)
    requires whole != "" && IsDigits(whole) && IsDigits(frac) && |frac| <= 12
    requires n == ReadDigits(whole) && m == Shift(ReadDigits(frac), 12 - |frac|)
    ensures ReadXch(whole + "." + frac) == Some(n * MOJOS_PER_XCH + m)
  {
    PointSplits(whole, frac);
    assert MojosOf(whole, frac) == n * MOJOS_PER_XCH + m;
  }

  lemma PointSplits(whole: string, frac: string)
    requires whole != "" && IsDigits(whole) && IsDigits(frac) && |frac| <= 12
    ensures ReadXch(whole + "." + frac) == Some(MojosOf(whole, frac))
  {
    var text := whole + "." + frac;
    DotAfterDigits(whole, frac);
    assert text[..|whole|] == whole;
    assert text[|whole| + 1..] == frac;
  }

  /** No two amounts render alike, as XCH or as base units. */
  /** A CAT amount is its base units in decimal, with no zeros ahead. */
  lemma RenderedUnitsReadBack(mojos: U64)
    ensures var text := RenderAmount(mojos, false);
            && text != "" && IsDigits(text) && ReadDigits(text) == mojos && (|text| > 1 ==> text[0] != '0')
  {
    DecimalReads(mojos);
    DecimalLeads(mojos);
  }

  lemma {:induction false} DecimalLeads(n: nat)
    ensures Decimal(n) != "" && (n > 0 ==> Decimal(n)[0] != '0') && (n == 0 ==> Decimal(n) == "0")
  {
    if n >= 10 {
      DecimalLeads(n / 10);
    }
  }

  /** An XCH amount is shown no longer than it need be: whole amounts without a point, others without zeros at
      the end, and neither with zeros ahead of the units. */
  lemma RenderedXchIsShort(mojos: U64)
    ensures var text := RenderAmount(mojos, true);
            && text != ""
            && (mojos % MOJOS_PER_XCH == 0 ==> '.' !in text)
            && (mojos % MOJOS_PER_XCH != 0 ==> text[|text| - 1] != '0')
            && (text[0] == '0' ==> mojos < MOJOS_PER_XCH)
  {
    var whole, frac := mojos / MOJOS_PER_XCH, mojos % MOJOS_PER_XCH;
    DecimalReads(whole);
    DecimalLeads(whole);
    NoDotInDigits(Decimal(whole));
    if frac != 0 {
      FractionEnds(frac);
      var text := RenderXch(whole, frac);
      assert text == (Decimal(whole) + ".") + FractionText(frac);
      assert text[|text| - 1] == FractionText(frac)[|FractionText(frac)| - 1];
      assert text[0] == Decimal(whole)[0];
    }
  }

  lemma {:induction false} TrimmedEnds(s: string)
    ensures TrimZeros(s) != "" ==> TrimZeros(s)[|TrimZeros(s)| - 1] != '0'
  {
    if s != "" && s[|s| - 1] == '0' {
      TrimmedEnds(s[..|s| - 1]);
    }
  }

  lemma FractionEnds(frac: nat)
    requires 0 < frac < MOJOS_PER_XCH
    ensures FractionText(frac) != "" && FractionText(frac)[|FractionText(frac)| - 1] != '0'
  {
    FractionReads(frac);
    TrimmedEnds(Padded(frac, 12));
  }

  lemma RenderedAmountsDiffer(a: U64, b: U64, isXch: bool)
    requires a != b
    ensures RenderAmount(a, isXch) != RenderAmount(b, isXch)
  {
    RenderedAmountReadsBack(a, RenderAmount(a, true));
    RenderedAmountReadsBack(b, RenderAmount(b, true));
    DecimalReads(a);
    DecimalReads(b);
  }

  lemma TwelveDigits()
    ensures Pow10(12) == MOJOS_PER_XCH && Pow10(0) == 1
  {
    assert Pow10(6) == 1_000_000;
    assert Pow10(7) == 10_000_000;
    assert Pow10(8) == 100_000_000;
    assert Pow10(9) == 1_000_000_000;
    assert Pow10(10) == 10_000_000_000;
    assert Pow10(11) == 100_000_000_000;
  }

  lemma NoDotInDigits(s: string)
    requires IsDigits(s)
    ensures DotAt(s) == |s|
  {
  }

  lemma {:induction false} DotAfterDigits(whole: string, frac: string)
    requires IsDigits(whole)
    ensures DotAt(whole + "." + frac) == |whole|
  {
    var text := whole + "." + frac;
    if whole != "" {
      assert text[1..] == whole[1..] + "." + frac;
      DotAfterDigits(whole[1..], frac);
    }
  }
}
