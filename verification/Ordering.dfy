/**
 The orders the ledger sorts by.

 Go compares strings byte by byte, and every listing sorts by a number and then
 a string (runs by start time and run id, fingerprint groups by spread and
 fingerprint), so a single total order on `Key` serves all of them.
 */
module Ordering {

  /** Byte-wise lexicographic order, as Go's `<` on strings. */
  predicate Before(a: string, b: string) {
    if |b| == 0 then false
    else if |a| == 0 then true
    else if a[0] != b[0] then a[0] < b[0]
    else Before(a[1..], b[1..])
  }

  /** `a` and `b` agree before `i`, and there `a` ends or has the smaller character. */
  ghost predicate SmallerAt(a: string, b: string, i: nat) {
    i <= |a| && i < |b| && a[..i] == b[..i] && (i == |a| || a[i] < b[i])
  }

  /** One string comes first exactly when it is the smaller where the two first part. */
  lemma {:induction false} BeforeExactly(a: string, b: string)
    ensures Before(a, b) <==> exists i: nat :: SmallerAt(a, b, i)
  {
    if |b| == 0 || |a| == 0 || a[0] != b[0] {
      if Before(a, b) { assert SmallerAt(a, b, 0); }
      if i: nat :| SmallerAt(a, b, i) && i > 0 {
        assert a[..i][0] == b[..i][0];
      }
    } else {
      BeforeExactly(a[1..], b[1..]);
      if i: nat :| SmallerAt(a[1..], b[1..], i) {
        assert a[..i + 1] == [a[0]] + a[1..][..i] == [b[0]] + b[1..][..i] == b[..i + 1];
        assert SmallerAt(a, b, i + 1);
      }
      if i: nat :| SmallerAt(a, b, i) {
        assert i > 0 && a[1..][..i - 1] == a[..i][1..] == b[..i][1..] == b[1..][..i - 1];
        assert SmallerAt(a[1..], b[1..], i - 1);
      }
    }
  }

  lemma {:induction false} BeforeTrichotomy(a: string, b: string)
    ensures Before(a, b) || a == b || Before(b, a)
    ensures !(Before(a, b) && Before(b, a))
    ensures a == b ==> !Before(a, b)
  {
    if |a| == 0 || |b| == 0 || a[0] != b[0] {
    } else {
      BeforeTrichotomy(a[1..], b[1..]);
      if a[1..] == b[1..] {
        assert a == [a[0]] + a[1..] == [b[0]] + b[1..] == b;
      }
    }
  }

  lemma {:induction false} BeforeTransitive(a: string, b: string, c: string)
    requires Before(a, b) && Before(b, c)
    ensures Before(a, c)
  {
    if |a| != 0 && a[0] == b[0] == c[0] {
      BeforeTransitive(a[1..], b[1..], c[1..]);
    }
  }

  datatype Key = Key(major: real, minor: string)

  predicate Less(x: Key, y: Key) {
    x.major < y.major || (x.major == y.major && Before(x.minor, y.minor))
  }

  lemma LessTrichotomy(x: Key, y: Key)
    ensures Less(x, y) || x == y || Less(y, x)
    ensures !(Less(x, y) && Less(y, x))
    ensures x == y ==> !Less(x, y)
  {
    BeforeTrichotomy(x.minor, y.minor);
  }

  lemma LessTransitive(x: Key, y: Key, z: Key)
    requires Less(x, y) && Less(y, z)
    ensures Less(x, z)
  {
    if x.major == y.major == z.major {
      BeforeTransitive(x.minor, y.minor, z.minor);
    }
  }

  ghost predicate Sorted<T>(s: seq<T>, key: T -> Key) {
    forall i, j :: 0 <= i < j < |s| ==> !Less(key(s[j]), key(s[i]))
  }

  /** No two different elements of `s` share a key. */
  ghost predicate KeysTellApart<T>(s: seq<T>, key: T -> Key) {
    forall x, y :: x in s && y in s && key(x) == key(y) ==> x == y
  }

  function Insert<T>(x: T, s: seq<T>, key: T -> Key): (r: seq<T>)
    ensures multiset(r) == multiset{x} + multiset(s)
  {
    if |s| == 0 then [x]
    else if Less(key(x), key(s[0])) then [x] + s
    else
      assert s == [s[0]] + s[1..];
      [s[0]] + Insert(x, s[1..], key)
  }

  /** What `sort.Slice` and `sort.Strings` return: an ordered rearrangement. */
  function Sort<T>(s: seq<T>, key: T -> Key): (r: seq<T>)
    ensures multiset(r) == multiset(s)
    ensures |r| == |s|
  {
    if |s| == 0 then []
    else
      assert s == [s[0]] + s[1..];
      var r := Insert(s[0], Sort(s[1..], key), key);
      assert |multiset(r)| == |multiset(s)|;
      r
  }

  lemma {:induction false} InsertSorted<T>(x: T, s: seq<T>, key: T -> Key)
    requires Sorted(s, key)
    ensures Sorted(Insert(x, s, key), key)
  {
    if |s| == 0 {
    } else if Less(key(x), key(s[0])) {
      forall j | 0 <= j < |s| ensures !Less(key(s[j]), key(x)) {
        if Less(key(s[j]), key(x)) {
          LessTransitive(key(s[j]), key(x), key(s[0]));
          LessTrichotomy(key(s[0]), key(s[0]));
        }
      }
    } else {
      var t := Insert(x, s[1..], key);
      InsertSorted(x, s[1..], key);
      forall j | 0 <= j < |t| ensures !Less(key(t[j]), key(s[0])) {
        assert t[j] in multiset(t);
        assert t[j] == x || t[j] in s[1..];
      }
    }
  }

  lemma {:induction false} SortSorted<T>(s: seq<T>, key: T -> Key)
    ensures Sorted(Sort(s, key), key)
  {
    if |s| == 0 {
    } else {
      SortSorted(s[1..], key);
      InsertSorted(s[0], Sort(s[1..], key), key);
    }
  }

  lemma SameHead<T>(a: seq<T>, b: seq<T>, key: T -> Key)
    requires Sorted(a, key) && Sorted(b, key)
    requires |a| > 0 && |b| > 0 && a[0] in b && b[0] in a
    requires KeysTellApart(a, key)
    ensures a[0] == b[0]
  {
    LessTrichotomy(key(a[0]), key(b[0]));
  }

  lemma SortedTail<T>(a: seq<T>, key: T -> Key)
    requires Sorted(a, key) && KeysTellApart(a, key) && |a| > 0
    ensures Sorted(a[1..], key) && KeysTellApart(a[1..], key)
  {
    assert forall x | x in a[1..] :: x in a;
  }

  lemma MultisetTail<T>(a: seq<T>)
    requires |a| > 0
    ensures multiset(a[1..]) == multiset(a) - multiset{a[0]}
  {
    assert a == [a[0]] + a[1..];
  }

  lemma SameMembers<T>(a: seq<T>, b: seq<T>)
    requires multiset(a) == multiset(b)
    ensures |a| == |b|
    ensures forall x | x in a :: x in b
  {
    assert |multiset(a)| == |multiset(b)|;
    assert forall x | x in a :: x in multiset(b);
  }

  /** There is only one ordered rearrangement when keys tell elements apart. */
  lemma {:induction false} SortedUnique<T>(a: seq<T>, b: seq<T>, key: T -> Key)
    requires Sorted(a, key) && Sorted(b, key)
    requires multiset(a) == multiset(b)
    requires KeysTellApart(a, key)
    ensures a == b
  {
    SameMembers(a, b);
    SameMembers(b, a);
    if |a| == 0 {
    } else {
      SameHead(a, b, key);
      SortedTail(a, key);
      assert KeysTellApart(b, key);
      SortedTail(b, key);
      MultisetTail(a);
      MultisetTail(b);
      SortedUnique(a[1..], b[1..], key);
      assert a == [a[0]] + a[1..] && b == [b[0]] + b[1..];
    }
  }

  /** The elements of a set, each once, in an order nothing depends on. */
  ghost function Elements<T>(s: set<T>): (r: seq<T>)
    ensures multiset(r) == multiset(s)
    ensures forall x | x in r :: x in s
    ensures forall x | x in s :: x in r
    ensures |r| == |s|
  {
    if s == {} then []
    else
      var x :| x in s;
      var rest := Elements(s - {x});
      assert multiset(s) == multiset{x} + multiset(s - {x});
      [x] + rest
  }

  /** Sorting strings alone: the key's numeric part is constant. */
  function TextKey(s: string): Key {
    Key(0.0, s)
  }

  /** The elements of a set of strings, each once, in order. */
  ghost function SortedSet(s: set<string>): (r: seq<string>)
    ensures Sorted(r, TextKey) && multiset(r) == multiset(s)
    ensures forall x :: x in r <==> x in s
  {
    SortSorted(Elements(s), TextKey);
    var r: seq<string> :| Sorted(r, TextKey) && multiset(r) == multiset(s);
    assert forall x :: x in r <==> x in multiset(r);
    r
  }

  lemma TwiceIn<T>(r: seq<T>, i: nat, j: nat)
    requires i < j < |r| && r[i] == r[j]
    ensures multiset(r)[r[i]] >= 2
  {
    assert r == r[..j] + [r[j]] + r[j + 1..];
    assert r[i] in r[..j];
  }

  /** Each element comes before all later ones. */
  lemma SortedSetStrict(s: set<string>)
    ensures forall i, j | 0 <= i < j < |SortedSet(s)| :: Before(SortedSet(s)[i], SortedSet(s)[j])
  {
    var r := SortedSet(s);
    forall i, j | 0 <= i < j < |r| ensures Before(r[i], r[j]) {
      assert multiset(r)[r[i]] <= 1;
      if r[i] == r[j] { TwiceIn(r, i, j); }
      BeforeTrichotomy(r[i], r[j]);
      assert !Less(TextKey(r[j]), TextKey(r[i]));
    }
  }

  /** However a program enumerates a set before sorting it, the result is the same. */
  lemma SortedSetUnique(e: seq<string>, s: set<string>)
    requires multiset(e) == multiset(s)
    ensures Sort(e, TextKey) == SortedSet(s)
  {
    SortSorted(e, TextKey);
    SortedUnique(Sort(e, TextKey), SortedSet(s), TextKey);
  }

  /** Collects a map's keys in whatever order iteration yields them, then sorts. */
  method CollectSorted(all: set<string>) returns (keys: seq<string>)
    ensures keys == SortedSet(all)
  {
    keys := [];
    var left := all;
    while left != {}
      invariant left <= all
      invariant multiset(keys) == multiset(all - left)
      decreases left
    {
      var k :| k in left;
      assert all - (left - {k}) == (all - left) + {k};
      keys, left := keys + [k], left - {k};
    }
    assert all - left == all;
    SortedSetUnique(keys, all);
    keys := Sort(keys, TextKey);
  }
}
