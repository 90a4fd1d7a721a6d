/** The order in which the canonical serializer prints the keys of an object. Strings are
    sequences of UTF-16 code units. */
module KeyOrder {

  type JsString = seq<int>

  /** The key "__proto__": assigning it sets the prototype and creates no property. */
  const PROTO: JsString := [95, 95, 112, 114, 111, 116, 111, 95, 95]

  /** Comparison by code units, as `sort()` without a comparator makes it. */
  predicate LexLeq(a: JsString, b: JsString) {
    a == [] || (b != [] && (a[0] < b[0] || (a[0] == b[0] && LexLeq(a[1..], b[1..]))))
  }

  function InsertKey(k: JsString, ks: seq<JsString>): seq<JsString> {
    if ks == [] || LexLeq(k, ks[0]) then [k] + ks else [ks[0]] + InsertKey(k, ks[1..])
  }

  function SortKeys(ks: seq<JsString>): seq<JsString> {
    if ks == [] then [] else InsertKey(ks[0], SortKeys(ks[1..]))
  }

  function Digits(k: JsString): int {
    if k == [] then 0 else 10 * Digits(k[..|k| - 1]) + (k[|k| - 1] - 48)
  }

  /** An array index (ECMA-262, section 6.1.7): a canonical numeral below 2^32 - 1. */
  predicate IsIndex(k: JsString) {
    && k != [] && (forall i :: 0 <= i < |k| ==> 48 <= k[i] <= 57)
    && (k[0] == 48 ==> |k| == 1) && Digits(k) < 0xFFFF_FFFF
  }

  function InsertIndex(k: JsString, ks: seq<JsString>): seq<JsString> {
    if ks == [] || NumLeq(k, ks[0]) then [k] + ks else [ks[0]] + InsertIndex(k, ks[1..])
  }

  /** The index keys, in ascending numeric order. */
  function Indices(ks: seq<JsString>): seq<JsString> {
    if ks == [] then []
    else if IsIndex(ks[0]) then InsertIndex(ks[0], Indices(ks[1..]))
    else Indices(ks[1..])
  }

  /** The other keys, in the order they were created. */
  function Names(ks: seq<JsString>): seq<JsString> {
    if ks == [] then []
    else if IsIndex(ks[0]) then Names(ks[1..])
    else [ks[0]] + Names(ks[1..])
  }

  /** The order in which an object lists properties created in the order `ks` (ECMA-262, section
      10.1.11). */
  function OwnKeys(ks: seq<JsString>): seq<JsString> { Indices(ks) + Names(ks) }

  function Without(key: JsString, ks: seq<JsString>): seq<JsString> {
    if ks == [] then []
    else if ks[0] == key then Without(key, ks[1..])
    else [ks[0]] + Without(key, ks[1..])
  }

  /** The keys that assignment turns into properties. */
  function WithoutProto(ks: seq<JsString>): seq<JsString> { Without(PROTO, ks) }

  /** The keys of the object the replacer builds, as printing enumerates them. */
  function Printed(ks: seq<JsString>): seq<JsString> { OwnKeys(WithoutProto(SortKeys(ks))) }

  // ----- lists -----

  predicate Distinct(ks: seq<JsString>) {
    forall i, j :: 0 <= i < j < |ks| ==> ks[i] != ks[j]
  }

  predicate SortedBy(leq: (JsString, JsString) -> bool, ks: seq<JsString>) {
    forall i, j :: 0 <= i < j < |ks| ==> leq(ks[i], ks[j])
  }

  predicate LexSorted(ks: seq<JsString>) { SortedBy(LexLeq, ks) }

  predicate NumLeq(a: JsString, b: JsString) { Digits(a) <= Digits(b) }

  predicate NumSorted(ks: seq<JsString>) { SortedBy(NumLeq, ks) }

  lemma NonEmptyHas<T>(s: seq<T>)
    ensures s != [] ==> exists x :: x in s
  {
    if s != [] { assert s[0] in s; }
  }

  lemma ConsIndexed(k: JsString, ks: seq<JsString>, x: JsString)
    requires x in ks
    ensures exists i :: 0 < i < |[k] + ks| && ([k] + ks)[i] == x
  {
    var i :| 0 <= i < |ks| && ks[i] == x;
    assert ([k] + ks)[i + 1] == x;
  }

  lemma ConsDistinct(k: JsString, ks: seq<JsString>)
    ensures Distinct([k] + ks) <==> Distinct(ks) && k !in ks
  {
    var all := [k] + ks;
    assert all[0] == k;
    assert forall i :: 0 <= i < |ks| ==> ks[i] == all[i + 1];
    if k in ks { ConsIndexed(k, ks, k); }
  }

  lemma ConsSorted(leq: (JsString, JsString) -> bool, k: JsString, ks: seq<JsString>)
    ensures SortedBy(leq, [k] + ks) <==> SortedBy(leq, ks) && forall x :: x in ks ==> leq(k, x)
  {
    var all := [k] + ks;
    assert all[0] == k;
    assert forall i :: 0 <= i < |ks| ==> ks[i] == all[i + 1];
    forall x | x in ks ensures SortedBy(leq, all) ==> leq(k, x) { ConsIndexed(k, ks, x); }
    if SortedBy(leq, ks) && forall x :: x in ks ==> leq(k, x) {
      forall i, j | 0 <= i < j < |all| ensures leq(all[i], all[j]) { assert all[j] == ks[j - 1] && ks[j - 1] in ks; }
    }
  }

  lemma ConsFacts(k: JsString, ks: seq<JsString>)
    ensures forall x :: x in [k] + ks <==> x == k || x in ks
    ensures Distinct([k] + ks) <==> Distinct(ks) && k !in ks
    ensures LexSorted([k] + ks) <==> LexSorted(ks) && forall x :: x in ks ==> LexLeq(k, x)
    ensures NumSorted([k] + ks) <==> NumSorted(ks) && forall x :: x in ks ==> NumLeq(k, x)
  {
    ConsDistinct(k, ks);
    ConsSorted(LexLeq, k, ks);
    ConsSorted(NumLeq, k, ks);
  }

  /** The facts about a list, read from its head and tail. */
  lemma HeadTail(ks: seq<JsString>)
    requires ks != []
    ensures forall x :: x in ks <==> x == ks[0] || x in ks[1..]
    ensures Distinct(ks) <==> Distinct(ks[1..]) && ks[0] !in ks[1..]
    ensures LexSorted(ks) <==> LexSorted(ks[1..]) && forall x :: x in ks[1..] ==> LexLeq(ks[0], x)
    ensures NumSorted(ks) <==> NumSorted(ks[1..]) && forall x :: x in ks[1..] ==> NumLeq(ks[0], x)
  {
    assert ks == [ks[0]] + ks[1..];
    ConsFacts(ks[0], ks[1..]);
  }

  lemma {:induction false} LexTotal(a: JsString, b: JsString)
    ensures LexLeq(a, b) || LexLeq(b, a)
    ensures LexLeq(a, b) && LexLeq(b, a) ==> a == b
  {
    if a != [] && b != [] && a[0] == b[0] {
      LexTotal(a[1..], b[1..]);
      assert a == [a[0]] + a[1..] && b == [b[0]] + b[1..];
    }
  }

  lemma {:induction false} LexTransitive(a: JsString, b: JsString, c: JsString)
    requires LexLeq(a, b) && LexLeq(b, c)
    ensures LexLeq(a, c)
  {
    if a != [] && a[0] == b[0] && b[0] == c[0] { LexTransitive(a[1..], b[1..], c[1..]); }
  }

  lemma {:induction false} InsertKeyFacts(k: JsString, ks: seq<JsString>)
    requires LexSorted(ks)
    ensures LexSorted(InsertKey(k, ks))
    ensures forall x :: x in InsertKey(k, ks) <==> x == k || x in ks
    ensures Distinct(ks) && k !in ks ==> Distinct(InsertKey(k, ks))
  {
    ConsFacts(k, ks);
    if ks != [] {
      HeadTail(ks);
      LexTotal(k, ks[0]);
      if LexLeq(k, ks[0]) {
        forall x | x in ks ensures LexLeq(k, x) { if x != ks[0] { LexTransitive(k, ks[0], x); } }
      } else {
        InsertKeyFacts(k, ks[1..]);
        ConsFacts(ks[0], InsertKey(k, ks[1..]));
      }
    }
  }

  lemma {:induction false} SortKeysFacts(ks: seq<JsString>)
    ensures LexSorted(SortKeys(ks))
    ensures forall x :: x in SortKeys(ks) <==> x in ks
    ensures Distinct(ks) ==> Distinct(SortKeys(ks))
  {
    if ks != [] {
      HeadTail(ks);
      SortKeysFacts(ks[1..]);
      InsertKeyFacts(ks[0], SortKeys(ks[1..]));
    }
  }

  /** A sorted list without repetition is determined by its elements. */
  lemma {:induction false} SortedUnique(a: seq<JsString>, b: seq<JsString>)
    requires LexSorted(a) && LexSorted(b) && Distinct(a) && Distinct(b)
    requires forall k :: k in a <==> k in b
    ensures a == b
  {
    NonEmptyHas(a);
    NonEmptyHas(b);
    if a != [] && b != [] {
      HeadTail(a);
      HeadTail(b);
      LexTotal(a[0], b[0]);
      assert a[0] == b[0];
      SortedUnique(a[1..], b[1..]);
    }
  }

  lemma {:induction false} WithoutMembers(key: JsString, ks: seq<JsString>)
    ensures forall k :: k in Without(key, ks) <==> k in ks && k != key
  {
    if ks != [] {
      WithoutMembers(key, ks[1..]);
      assert ks == [ks[0]] + ks[1..];
    }
  }

  lemma {:induction false} WithoutDistinct(key: JsString, ks: seq<JsString>)
    requires Distinct(ks)
    ensures Distinct(Without(key, ks))
  {
    if ks != [] {
      var rest := ks[1..];
      assert ks == [ks[0]] + rest;
      ConsDistinct(ks[0], rest);
      WithoutDistinct(key, rest);
      WithoutMembers(key, rest);
      ConsDistinct(ks[0], Without(key, rest));
    }
  }

  lemma {:induction false} WithoutSorted(leq: (JsString, JsString) -> bool, key: JsString, ks: seq<JsString>)
    requires SortedBy(leq, ks)
    ensures SortedBy(leq, Without(key, ks))
  {
    if ks != [] {
      var rest := ks[1..];
      assert ks == [ks[0]] + rest;
      ConsSorted(leq, ks[0], rest);
      WithoutSorted(leq, key, rest);
      WithoutMembers(key, rest);
      ConsSorted(leq, ks[0], Without(key, rest));
    }
  }

  lemma WithoutFacts(key: JsString, ks: seq<JsString>)
    requires Distinct(ks) && LexSorted(ks)
    ensures Distinct(Without(key, ks)) && LexSorted(Without(key, ks))
    ensures forall k :: k in Without(key, ks) <==> k in ks && k != key
  {
    WithoutDistinct(key, ks);
    WithoutSorted(LexLeq, key, ks);
    WithoutMembers(key, ks);
  }

  lemma {:induction false} InsertIndexFacts(k: JsString, ks: seq<JsString>)
    ensures forall x :: x in InsertIndex(k, ks) <==> x == k || x in ks
    ensures Distinct(ks) && k !in ks ==> Distinct(InsertIndex(k, ks))
    ensures NumSorted(ks) ==> NumSorted(InsertIndex(k, ks))
  {
    ConsFacts(k, ks);
    if ks != [] {
      HeadTail(ks);
      if !NumLeq(k, ks[0]) {
        InsertIndexFacts(k, ks[1..]);
        ConsFacts(ks[0], InsertIndex(k, ks[1..]));
      }
    }
  }

  lemma {:induction false} OwnKeysFacts(ks: seq<JsString>)
    ensures forall k :: k in Indices(ks) <==> k in ks && IsIndex(k)
    ensures forall k :: k in Names(ks) <==> k in ks && !IsIndex(k)
    ensures NumSorted(Indices(ks)) && (LexSorted(ks) ==> LexSorted(Names(ks)))
    ensures Distinct(ks) ==> Distinct(Indices(ks)) && Distinct(Names(ks))
  {
    if ks != [] {
      HeadTail(ks);
      OwnKeysFacts(ks[1..]);
      if IsIndex(ks[0]) {
        InsertIndexFacts(ks[0], Indices(ks[1..]));
      } else {
        ConsFacts(ks[0], Names(ks[1..]));
      }
    }
  }

  lemma DistinctConcat(a: seq<JsString>, b: seq<JsString>)
    requires Distinct(a) && Distinct(b) && forall x :: x in a ==> x !in b
    ensures Distinct(a + b)
  {
    forall i, j | 0 <= i < j < |a + b|
      ensures (a + b)[i] != (a + b)[j]
    {
      if i < |a| <= j { assert (a + b)[i] in a && (a + b)[j] in b; }
    }
  }

  // ----- the printed order -----

  /** Every key but "__proto__" is printed once: the index keys by value, then the other keys by
      code units. */
  lemma PrintedFacts(ks: seq<JsString>)
    requires Distinct(ks)
    ensures Distinct(Printed(ks)) && forall k :: k in Printed(ks) <==> k in ks && k != PROTO
    ensures var shown := WithoutProto(SortKeys(ks));
            && Printed(ks) == Indices(shown) + Names(shown)
            && NumSorted(Indices(shown)) && LexSorted(Names(shown))
            && (forall k :: k in Indices(shown) ==> IsIndex(k)) && (forall k :: k in Names(shown) ==> !IsIndex(k))
  {
    SortKeysFacts(ks);
    WithoutFacts(PROTO, SortKeys(ks));
    OwnKeysFacts(WithoutProto(SortKeys(ks)));
    DistinctConcat(Indices(WithoutProto(SortKeys(ks))), Names(WithoutProto(SortKeys(ks))));
  }

  /** The printed keys are among the given ones, whether or not those are distinct. */
  lemma PrintedWithin(ks: seq<JsString>)
    ensures forall k :: k in Printed(ks) ==> k in ks
  {
    SortKeysFacts(ks);
    WithoutMembers(PROTO, SortKeys(ks));
    OwnKeysFacts(WithoutProto(SortKeys(ks)));
  }

  /** The printed order depends only on which keys there are. */
  lemma PrintedCanonical(ks: seq<JsString>, ls: seq<JsString>)
    requires Distinct(ks) && Distinct(ls)
    requires forall k :: k != PROTO ==> (k in ks <==> k in ls)
    ensures Printed(ks) == Printed(ls)
  {
    SortKeysFacts(ks);
    SortKeysFacts(ls);
    WithoutFacts(PROTO, SortKeys(ks));
    WithoutFacts(PROTO, SortKeys(ls));
    SortedUnique(WithoutProto(SortKeys(ks)), WithoutProto(SortKeys(ls)));
  }

  /** The documented rule is alphabetical order. It fails on index keys: "9" precedes "10". */
  lemma IndexKeysAreNotAlphabetical()
    ensures var (nine, ten) := ([57], [49, 48]);
            Printed([ten, nine]) == [nine, ten] && !LexSorted([nine, ten])
  {
    var nine, ten: JsString := [57], [49, 48];
    var one, both: seq<JsString> := [nine], [ten, nine];
    assert one[1..] == [] && both[1..] == one;
    assert nine[..0] == [] && ten[..1] == [49] && ten[..1][..0] == [];
    assert Digits(ten[..1]) == 1;
    assert Digits(nine) == 9 && Digits(ten) == 10;
    assert IsIndex(nine) && IsIndex(ten);
    assert SortKeys(one) == one;
    assert LexLeq(ten, nine) && !LexLeq(nine, ten);
    assert SortKeys(both) == both;
    assert nine[0] != PROTO[0] && ten[0] != PROTO[0];
    assert Without(PROTO, one[1..]) == [] && one[0] != PROTO && both[0] != PROTO;
    assert Without(PROTO, one) == one;
    assert Without(PROTO, both) == both;
    assert Names(one[1..]) == [] && Indices(one[1..]) == [];
    assert IsIndex(one[0]) && IsIndex(both[0]);
    assert Indices(one) == one && Names(one) == [];
    assert InsertIndex(ten, one) == [nine, ten];
    assert Names(both) == [];
    assert [nine, ten][0] == nine && [nine, ten][1] == ten;
  }

  lemma {:induction false} NumeralPositive(k: JsString)
    requires k != [] && k[0] != 48 && forall i :: 0 <= i < |k| ==> 48 <= k[i] <= 57
    ensures Digits(k) >= 1 && (|k| > 1 ==> Digits(k) >= 10)
  {
    if |k| > 1 { NumeralPositive(k[..|k| - 1]); } else { assert k[..0] == []; }
  }

  /** Two index keys of one value are the same key. */
  lemma {:induction false} NumeralsAreUnique(a: JsString, b: JsString)
    requires a != [] && (forall i :: 0 <= i < |a| ==> 48 <= a[i] <= 57) && (a[0] == 48 ==> |a| == 1)
    requires b != [] && (forall i :: 0 <= i < |b| ==> 48 <= b[i] <= 57) && (b[0] == 48 ==> |b| == 1)
    requires Digits(a) == Digits(b)
    ensures a == b
  {
    var m, n := |a| - 1, |b| - 1;
    assert a == a[..m] + [a[m]] && b == b[..n] + [b[n]];
    if a[0] != 48 { NumeralPositive(a); }
    if b[0] != 48 { NumeralPositive(b); }
    assert m == 0 ==> Digits(a[..m]) == 0;
    assert n == 0 ==> Digits(b[..n]) == 0;
    if m > 0 && n > 0 { NumeralsAreUnique(a[..m], b[..n]); }
  }

  /** Every key that comes alphabetically before an index key is an index key of smaller value. */
  ghost predicate IndicesLeadAlphabet(ks: seq<JsString>) {
    forall a, b :: a in ks && b in ks && PROTO !in {a, b} && IsIndex(a) && LexLeq(b, a) ==>
      IsIndex(b) && NumLeq(b, a)
  }

  /** The printed order is alphabetical, as documented, exactly when numeric order and the
      precedence of index keys happen to agree with it. */
  lemma AlphabeticalIff(ks: seq<JsString>)
    requires Distinct(ks)
    ensures LexSorted(Printed(ks)) <==> IndicesLeadAlphabet(ks)
  {
    PrintedFacts(ks);
    if IndicesLeadAlphabet(ks) {
      PrintedIsAlphabetical(ks);
    } else {
      var a, b :| a in ks && b in ks && PROTO !in {a, b} && IsIndex(a) && LexLeq(b, a) && !(IsIndex(b) && NumLeq(b, a));
      LaterIsSmaller(ks, a, b);
    }
  }

  /** Two keys in printed positions i < j: both are indices by value, or the later is a name. */
  lemma PrintedPair(ks: seq<JsString>, i: nat, j: nat)
    requires Distinct(ks) && i < j < |Printed(ks)|
    ensures var a, b := Printed(ks)[i], Printed(ks)[j];
            || (IsIndex(a) && IsIndex(b) && NumLeq(a, b))
            || (IsIndex(a) && !IsIndex(b))
            || (!IsIndex(a) && !IsIndex(b) && LexLeq(a, b))
  {
    PrintedFacts(ks);
    var shown := WithoutProto(SortKeys(ks));
    var n := |Indices(shown)|;
    if j < n {
      assert Printed(ks)[j] == Indices(shown)[j] && Printed(ks)[j] in Indices(shown);
    } else {
      assert Printed(ks)[j] == Names(shown)[j - n] && Printed(ks)[j] in Names(shown);
    }
    if i < n {
      assert Printed(ks)[i] == Indices(shown)[i] && Printed(ks)[i] in Indices(shown);
    } else {
      assert Printed(ks)[i] == Names(shown)[i - n] && Printed(ks)[i] in Names(shown);
    }
  }

  lemma PrintedAfterIndex(ks: seq<JsString>, i: nat, j: nat)
    requires Distinct(ks) && i < |Printed(ks)| && j < |Printed(ks)|
    requires var a, b := Printed(ks)[i], Printed(ks)[j];
             a != b && IsIndex(a) && !(IsIndex(b) && NumLeq(b, a))
    ensures i < j
  {
    if j < i { PrintedPair(ks, j, i); }
  }

  lemma PrintedIsAlphabetical(ks: seq<JsString>)
    requires Distinct(ks) && IndicesLeadAlphabet(ks)
    ensures LexSorted(Printed(ks))
  {
    var p := Printed(ks);
    PrintedFacts(ks);
    forall i, j | 0 <= i < j < |p|
      ensures LexLeq(p[i], p[j])
    {
      PrintedPair(ks, i, j);
      LexTotal(p[i], p[j]);
      assert p[i] in p && p[j] in p;
      if IsIndex(p[i]) && IsIndex(p[j]) && Digits(p[i]) == Digits(p[j]) { NumeralsAreUnique(p[i], p[j]); }
    }
  }

  /** A key that is printed after an index key although it comes alphabetically before it. */
  lemma LaterIsSmaller(ks: seq<JsString>, a: JsString, b: JsString)
    requires Distinct(ks) && a in ks && b in ks && PROTO !in {a, b}
    requires IsIndex(a) && LexLeq(b, a) && !(IsIndex(b) && NumLeq(b, a))
    ensures !LexSorted(Printed(ks))
  {
    var p := Printed(ks);
    PrintedFacts(ks);
    var i :| 0 <= i < |p| && p[i] == a;
    var j :| 0 <= j < |p| && p[j] == b;
    PrintedAfterIndex(ks, i, j);
    LexTotal(a, b);
    assert !LexLeq(p[i], p[j]);
  }
}
