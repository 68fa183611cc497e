/**
 The order of `Array.prototype.sort` on strings, and stable sorting of keyed items.

 Strings compare by UTF-16 code units.  A Dafny `char` is a Unicode scalar value, so `Rank` places the
 supplementary planes (whose lead surrogates are D800 to DBFF) between D7FF and E000.
 */
module Order {
  import opened Utf16

  function Rank(c: char): int {
    var code := c as int;
    if code < 0xD800 then code
    else if code < 0x1_0000 then code + 0x10_0000
    else code - 0x1_0000 + 0xD800
  }

  predicate Less(a: string, b: string) {
    |b| > 0 &&
    (|a| == 0 || Rank(a[0]) < Rank(b[0]) || (a[0] == b[0] && Less(a[1..], b[1..])))
  }

  lemma {:induction false} LessTotal(a: string, b: string)
    ensures Less(a, b) || Less(b, a) || a == b
    ensures !(Less(a, b) && Less(b, a))
    ensures !Less(a, a)
  {
    if |a| > 0 {
      LessTotal(a[1..], a[1..]);
      if |b| > 0 && a[0] == b[0] {
        LessTotal(a[1..], b[1..]);
        assert a == [a[0]] + a[1..] && b == [b[0]] + b[1..];
      }
    }
  }

  lemma {:induction false} LessTransitive(a: string, b: string, c: string)
    requires Less(a, b) && Less(b, c)
    ensures Less(a, c)
  {
    if |a| > 0 && a[0] == b[0] && b[0] == c[0] {
      LessTransitive(a[1..], b[1..], c[1..]);
    }
  }

  lemma CharsInOrder(c: char, d: char, x: seq<int>, y: seq<int>)
    requires c != d
    ensures Before(CodeUnits(c) + x, CodeUnits(d) + y) <==> Rank(c) < Rank(d)
  {
    var u, w := CodeUnits(c) + x, CodeUnits(d) + y;
    UnitsOfChar(c);
    UnitsOfChar(d);
    assert u[0] == CodeUnits(c)[0] && w[0] == CodeUnits(d)[0];
    if u[0] != w[0] {
      assert FirstDifference(u, w, 0);
      BeforeAtDifference(u, w, 0);
    } else {
      assert u[1] == CodeUnits(c)[1] && w[1] == CodeUnits(d)[1];
      assert FirstDifference(u, w, 1);
      BeforeAtDifference(u, w, 1);
    }
  }

  /** The order is that of UTF-16 code units: a proper prefix, or the smaller unit at the first difference. */
  lemma {:induction false} LessIsUnitOrder(a: string, b: string)
    ensures Less(a, b) <==> Before(Units(a), Units(b))
  {
    if b == [] {
    } else if a == [] {
      UnitsOfChar(b[0]);
    } else if a[0] == b[0] {
      LessIsUnitOrder(a[1..], b[1..]);
      BeforeAfterPrefix(CodeUnits(a[0]), Units(a[1..]), Units(b[1..]));
    } else {
      CharsInOrder(a[0], b[0], Units(a[1..]), Units(b[1..]));
      RankDetermines(a[0], b[0]);
    }
  }

  lemma RankDetermines(c: char, d: char)
    ensures Rank(c) == Rank(d) ==> c == d
  {
  }

  /** An item filed under the string it is sorted by. */
  datatype Keyed<T> = Keyed(key: string, item: T)

  /** Insertion in front of the first entry whose key is not smaller, which keeps equal keys in order. */
  function Insert<T>(x: Keyed<T>, s: seq<Keyed<T>>): seq<Keyed<T>> {
    if s == [] || !Less(s[0].key, x.key) then [x] + s else [s[0]] + Insert(x, s[1..])
  }

  function Sort<T>(s: seq<Keyed<T>>): seq<Keyed<T>> {
    if s == [] then [] else Insert(s[0], Sort(s[1..]))
  }

  ghost predicate Sorted<T>(s: seq<Keyed<T>>) {
    forall i, j | 0 <= i < j < |s| :: !Less(s[j].key, s[i].key)
  }

  /** Entries with the same key are the same entry. */
  ghost predicate KeyDeterminesItem<T>(s: seq<Keyed<T>>) {
    forall x, y | x in s && y in s && x.key == y.key :: x == y
  }

  ghost predicate DistinctKeys<T>(s: seq<Keyed<T>>) {
    forall i, j | 0 <= i < j < |s| :: s[i].key != s[j].key
  }

  lemma {:induction false} InsertIsPermutation<T>(x: Keyed<T>, s: seq<Keyed<T>>)
    ensures multiset(Insert(x, s)) == multiset(s) + multiset{x}
  {
    if !(s == [] || !Less(s[0].key, x.key)) {
      InsertIsPermutation(x, s[1..]);
      assert s == [s[0]] + s[1..];
    }
  }

  lemma {:induction false} SortIsPermutation<T>(s: seq<Keyed<T>>)
    ensures multiset(Sort(s)) == multiset(s)
    ensures |Sort(s)| == |s|
  {
    if s != [] {
      SortIsPermutation(s[1..]);
      InsertIsPermutation(s[0], Sort(s[1..]));
      assert s == [s[0]] + s[1..];
    }
    assert |multiset(Sort(s))| == |multiset(s)|;
  }

  /** Every sorted entry stood somewhere before. */
  lemma SortedEntryIsOld<T>(s: seq<Keyed<T>>, k: nat) returns (i: nat)
    requires k < |Sort(s)|
    ensures i < |s| && s[i] == Sort(s)[k]
  {
    SortIsPermutation(s);
    assert Sort(s)[k] in multiset(s);
    i :| 0 <= i < |s| && s[i] == Sort(s)[k];
  }

  lemma {:induction false} InsertKeepsSorted<T>(x: Keyed<T>, s: seq<Keyed<T>>)
    requires Sorted(s)
    ensures Sorted(Insert(x, s))
  {
    if s == [] {
    } else if !Less(s[0].key, x.key) {
      forall j | 0 <= j < |s| ensures !Less(s[j].key, x.key) {
        if Less(s[j].key, x.key) {
          LessTotal(s[0].key, s[j].key);
          if Less(s[0].key, s[j].key) { LessTransitive(s[0].key, s[j].key, x.key); }
        }
      }
    } else {
      InsertKeepsSorted(x, s[1..]);
      InsertIsPermutation(x, s[1..]);
      var rest := Insert(x, s[1..]);
      LessTotal(s[0].key, x.key);
      forall j | 0 <= j < |rest| ensures !Less(rest[j].key, s[0].key) {
        assert rest[j] in multiset(s[1..]) + multiset{x};
      }
    }
  }

  lemma {:induction false} SortIsSorted<T>(s: seq<Keyed<T>>)
    ensures Sorted(Sort(s))
  {
    if s != [] {
      SortIsSorted(s[1..]);
      InsertKeepsSorted(s[0], Sort(s[1..]));
    }
  }

  /** Two sorted arrangements of the same entries are equal when a key determines its entry. */
  lemma {:induction false} SortedIsUnique<T>(a: seq<Keyed<T>>, b: seq<Keyed<T>>)
    requires Sorted(a) && Sorted(b) && multiset(a) == multiset(b) && KeyDeterminesItem(a)
    ensures a == b
  {
    assert |multiset(a)| == |multiset(b)|;
    if a != [] {
      SameHead(a, b);
      TailEntries(a);
      TailEntries(b);
      assert KeyDeterminesItem(a[1..]);
      SortedIsUnique(a[1..], b[1..]);
      assert a == [a[0]] + a[1..] && b == [b[0]] + b[1..];
    }
  }

  lemma TailEntries<T>(s: seq<Keyed<T>>)
    requires s != []
    ensures multiset(s[1..]) == multiset(s) - multiset{s[0]}
  {
    assert s == [s[0]] + s[1..];
  }

  lemma SameHead<T>(a: seq<Keyed<T>>, b: seq<Keyed<T>>)
    requires Sorted(a) && Sorted(b) && multiset(a) == multiset(b) && KeyDeterminesItem(a) && a != [] && b != []
    ensures a[0] == b[0]
  {
    assert a[0] in multiset(b) && b[0] in multiset(a);
    var i :| 0 <= i < |b| && b[i] == a[0];
    var j :| 0 <= j < |a| && a[j] == b[0];
    assert !Less(b[i].key, b[0].key) || i == 0;
    assert !Less(a[j].key, a[0].key) || j == 0;
    LessTotal(a[0].key, b[0].key);
  }

  /** Sorting forgets the original order, and nothing else. */
  lemma SortForgetsOrder<T>(a: seq<Keyed<T>>, b: seq<Keyed<T>>)
    requires KeyDeterminesItem(a)
    ensures Sort(a) == Sort(b) <==> multiset(a) == multiset(b)
  {
    SortIsPermutation(a);
    SortIsPermutation(b);
    if multiset(a) == multiset(b) {
      SortIsSorted(a);
      SortIsSorted(b);
      forall x | x in Sort(a) ensures x in a { assert x in multiset(Sort(a)); }
      SortedIsUnique(Sort(a), Sort(b));
    }
  }

  /** Without repeated keys, having the same members is having the same entries with multiplicity. */
  lemma {:induction false} DistinctSameMembers<T>(a: seq<Keyed<T>>, b: seq<Keyed<T>>)
    requires DistinctKeys(a) && DistinctKeys(b)
    requires forall x :: x in a <==> x in b
    ensures multiset(a) == multiset(b)
  {
    forall x ensures multiset(a)[x] == multiset(b)[x] {
      DistinctCount(a, x);
      DistinctCount(b, x);
    }
  }

  lemma {:induction false} DistinctCount<T>(a: seq<Keyed<T>>, x: Keyed<T>)
    requires DistinctKeys(a)
    ensures multiset(a)[x] == if x in a then 1 else 0
  {
    if a != [] {
      assert a == [a[0]] + a[1..];
      DistinctCount(a[1..], x);
    }
  }

  /** Items filed under a key computed from each of them. */
  function FileBy<T>(s: seq<T>, key: T -> string): seq<Keyed<T>> {
    seq(|s|, i requires 0 <= i < |s| => Keyed(key(s[i]), s[i]))
  }

  lemma {:induction false} FiledCount<T>(s: seq<T>, key: T -> string, x: Keyed<T>)
    ensures multiset(FileBy(s, key))[x] == if x.key == key(x.item) then multiset(s)[x.item] else 0
  {
    if s != [] {
      FiledCount(s[1..], key, x);
      assert s == [s[0]] + s[1..];
      assert FileBy(s, key) == [Keyed(key(s[0]), s[0])] + FileBy(s[1..], key);
    }
  }

  /** Sorting by a key that determines its item keeps exactly the items with their multiplicity. */
  lemma SortByForgetsOrder<T>(a: seq<T>, b: seq<T>, key: T -> string)
    requires forall x, y | x in a && y in a && key(x) == key(y) :: x == y
    ensures Sort(FileBy(a, key)) == Sort(FileBy(b, key)) <==> multiset(a) == multiset(b)
  {
    var fa, fb := FileBy(a, key), FileBy(b, key);
    SortForgetsOrder(fa, fb);
    if multiset(a) == multiset(b) {
      forall x ensures multiset(fa)[x] == multiset(fb)[x] {
        FiledCount(a, key, x);
        FiledCount(b, key, x);
      }
    }
    if multiset(fa) == multiset(fb) {
      forall e ensures multiset(a)[e] == multiset(b)[e] {
        FiledCount(a, key, Keyed(key(e), e));
        FiledCount(b, key, Keyed(key(e), e));
      }
    }
  }

  lemma SortedItemIsFiled<T>(s: seq<T>, key: T -> string, i: nat)
    requires i < |Sort(FileBy(s, key))|
    ensures var x := Sort(FileBy(s, key))[i]; x.key == key(x.item) && x.item in s
  {
    SortIsPermutation(FileBy(s, key));
    assert Sort(FileBy(s, key))[i] in multiset(FileBy(s, key));
  }

  lemma TwoOccurrences<T>(s: seq<T>, i: nat, j: nat)
    requires i < j < |s| && s[i] == s[j]
    ensures multiset(s)[s[i]] >= 2
  {
    assert s == s[..j] + [s[j]] + s[j + 1..];
    assert s[..j][i] == s[i];
    assert multiset(s) == multiset(s[..j]) + multiset{s[j]} + multiset(s[j + 1..]);
  }

  /** Distinct keys come out strictly ascending. */
  lemma SortIsStrict<T>(s: seq<Keyed<T>>)
    requires DistinctKeys(s)
    ensures forall i, j | 0 <= i < j < |s| :: |Sort(s)| == |s| && Less(Sort(s)[i].key, Sort(s)[j].key)
  {
    var sorted := Sort(s);
    SortIsPermutation(s);
    SortIsSorted(s);
    forall i, j | 0 <= i < j < |s| ensures Less(sorted[i].key, sorted[j].key) {
      LessTotal(sorted[i].key, sorted[j].key);
      assert sorted[i] in multiset(s) && sorted[j] in multiset(s);
      if sorted[i].key == sorted[j].key {
        TwoOccurrences(sorted, i, j);
        DistinctCount(s, sorted[i]);
      }
    }
  }
}
