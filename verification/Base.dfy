/** Results, options, Go's integer widths and the expiry convention that several components share. */
module Base {
  datatype Option<+T> = None | Some(value: T)

  datatype Result<+T, +E> = Ok(value: T) | Err(error: E)

  const MIN_INT32: int := -0x8000_0000
  const MAX_INT32: int := 0x7FFF_FFFF

  predicate Fits32(x: int) {
    MIN_INT32 <= x <= MAX_INT32
  }

  /** Go's two's-complement result for an `int32` operation whose exact value is `x`. */
  function Wrap32(x: int): (r: int)
    ensures Fits32(r)
    ensures Fits32(x) ==> r == x
  {
    (x + 0x8000_0000) % 0x1_0000_0000 - 0x8000_0000
  }

  predicate Fits64(x: int) {
    -0x8000_0000_0000_0000 <= x < 0x8000_0000_0000_0000
  }

  /** Go's two's-complement result for an `int64` operation whose exact value is `x`. */
  function Wrap64(x: int): (r: int)
    ensures Fits64(r)
  {
    if Fits64(x) then x
    else (x + 0x8000_0000_0000_0000) % 0x1_0000_0000_0000_0000 - 0x8000_0000_0000_0000
  }

  /** Go's division, which truncates toward zero. */
  function GoDiv(a: int, b: int): int
    requires 0 < b
  {
    if 0 <= a then a / b else -((-a) / b)
  }

  /** What the two widths and the division mean, for operands of either sign. */
  lemma MachineArithmetic(x: int, a: int, b: int)
    requires 0 < b
    ensures (Wrap32(x) - x) % 0x1_0000_0000 == 0
    ensures (Wrap64(x) - x) % 0x1_0000_0000_0000_0000 == 0 && (Fits64(x) ==> Wrap64(x) == x)
    ensures 0 <= a ==> GoDiv(a, b) * b <= a < GoDiv(a, b) * b + b
    ensures a <= 0 ==> GoDiv(a, b) * b - b < a <= GoDiv(a, b) * b
  {
  }

  lemma ProductMonotone(a: int, b: int, c: int)
    requires a <= b && 0 <= c
    ensures a * c <= b * c
  {
  }

  /** A cached value with the last instant at which a lookup still returns it. */
  datatype Timed<+T> = Timed(value: T, expires: int)

  function Lookup<K, V>(cache: map<K, Timed<V>>, key: K, now: int): Option<V> {
    if key in cache && now <= cache[key].expires then Some(cache[key].value) else None
  }
}

/** Orders, and the fact that makes an unstable sort deterministic. */
module Ordering {
  /** Go's `<` on strings. */
  predicate StringLess(a: string, b: string) {
    if b == "" then false
    else if a == "" then true
    else if a[0] != b[0] then a[0] < b[0]
    else StringLess(a[1..], b[1..])
  }

  lemma {:induction false} StringLessIrreflexive(a: string)
    ensures !StringLess(a, a)
  {
    if a != "" {
      StringLessIrreflexive(a[1..]);
    }
  }

  lemma {:induction false} StringLessTransitive(a: string, b: string, c: string)
    requires StringLess(a, b) && StringLess(b, c)
    ensures StringLess(a, c)
  {
    if a != "" && a[0] == b[0] == c[0] {
      StringLessTransitive(a[1..], b[1..], c[1..]);
    }
  }

  lemma {:induction false} StringLessTotal(a: string, b: string)
    ensures StringLess(a, b) || a == b || StringLess(b, a)
  {
    if a != "" && b != "" && a[0] == b[0] {
      StringLessTotal(a[1..], b[1..]);
      assert a == [a[0]] + a[1..] && b == [b[0]] + b[1..];
    }
  }

  /** The strings first differ at `k`, where `a` ends or has the smaller character. */
  predicate LessAt(a: string, b: string, k: int) {
    && 0 <= k <= |a| && k < |b| && a[..k] == b[..k]
    && (k == |a| || a[k] < b[k])
  }

  lemma {:induction false} StringLessMeaning(a: string, b: string)
    ensures StringLess(a, b) <==> exists k :: LessAt(a, b, k)
  {
    if a == "" && b != "" {
      assert LessAt(a, b, 0);
    } else if a != "" && b != "" {
      var a', b' := a[1..], b[1..];
      StringLessMeaning(a', b');
      if a[0] < b[0] {
        assert LessAt(a, b, 0);
      } else if a[0] == b[0] {
        forall k | LessAt(a', b', k) ensures LessAt(a, b, k + 1) {
          assert a[..k + 1] == [a[0]] + a'[..k] && b[..k + 1] == [b[0]] + b'[..k];
        }
        forall k | LessAt(a, b, k) ensures LessAt(a', b', k - 1) {
          assert a[0] == a[..k][0] || k == 0;
          assert k != 0;
          assert a'[..k - 1] == a[..k][1..] && b'[..k - 1] == b[..k][1..];
        }
      } else {
        forall k ensures !LessAt(a, b, k) {
          assert 0 < k <= |a| && k < |b| ==> a[..k][0] == a[0] && b[..k][0] == b[0];
        }
      }
    }
  }

  /** What `sort.Slice` asks of its comparison. */
  ghost predicate StrictWeakOrder<T(!new)>(less: (T, T) -> bool) {
    && (forall x, y :: less(x, y) ==> !less(y, x))
    && (forall x, y, z :: less(x, z) ==> less(x, y) || less(y, z))
  }

  /** What `sort.Slice` promises of its result. */
  ghost predicate SortedBy<T(!new)>(less: (T, T) -> bool, s: seq<T>) {
    forall i, j :: 0 <= i < j < |s| ==> !less(s[j], s[i])
  }

  lemma StringLessIsWeakOrder()
    ensures StrictWeakOrder(StringLess)
  {
    forall x, y | StringLess(x, y) ensures !StringLess(y, x) {
      if StringLess(y, x) {
        StringLessTransitive(x, y, x);
        StringLessIrreflexive(x);
      }
    }
    forall x, y, z | StringLess(x, z) ensures StringLess(x, y) || StringLess(y, z) {
      StringLessTotal(x, y);
      if StringLess(y, x) {
        StringLessTransitive(y, x, z);
      }
    }
  }

  lemma FirstIsMember<T>(t: seq<T>)
    requires t != []
    ensures t[0] in t
  {
  }

  lemma HeadIsLeast<T(!new)>(less: (T, T) -> bool, s: seq<T>, x: T)
    requires SortedBy(less, s) && x in s
    ensures x == s[0] || !less(x, s[0])
  {
  }

  /** Where no two different elements tie, all sorted arrangements of a set are the same. */
  lemma {:induction false} SortedIsUnique<T(!new)>(less: (T, T) -> bool, s: seq<T>, t: seq<T>)
    requires StrictWeakOrder(less) && SortedBy(less, s) && SortedBy(less, t)
    requires forall i, j :: 0 <= i < j < |s| ==> s[i] != s[j]
    requires forall i, j :: 0 <= i < j < |t| ==> t[i] != t[j]
    requires forall x :: x in s <==> x in t
    requires forall x, y :: x in s && y in s && x != y ==> less(x, y) || less(y, x)
    ensures s == t
  {
    if s == [] {
      if t != [] {
        FirstIsMember(t);
        assert false;
      }
    } else {
      assert s[0] in t && t[0] in s;
      HeadIsLeast(less, s, t[0]);
      HeadIsLeast(less, t, s[0]);
      var s', t' := s[1..], t[1..];
      assert s == [s[0]] + s' && t == [t[0]] + t';
      forall x ensures x in s' <==> x in t' {
        if x in s' {
          var i :| 0 <= i < |s'| && s'[i] == x;
          assert s[i + 1] == x && x != s[0];
          assert x in t;
        }
        if x in t' {
          var i :| 0 <= i < |t'| && t'[i] == x;
          assert t[i + 1] == x && x != t[0];
          assert x in s;
        }
      }
      SortedIsUnique(less, s', t');
    }
  }

  /** Stands for `sort.Slice`: a sorted rearrangement; nothing more is promised about ties. */
  method SortSlice<T(!new)>(less: (T, T) -> bool, s: seq<T>) returns (r: seq<T>)
    requires StrictWeakOrder(less)
    ensures SortedBy(less, r)
    ensures multiset(r) == multiset(s)
  {
    r := [];
    for k := 0 to |s|
      invariant SortedBy(less, r)
      invariant multiset(r) == multiset(s[..k])
    {
      r := Insert(less, r, s[k]);
      assert s[..k + 1] == s[..k] + [s[k]];
    }
    assert s[..|s|] == s;
  }

  method Insert<T(!new)>(less: (T, T) -> bool, r: seq<T>, x: T) returns (t: seq<T>)
    requires StrictWeakOrder(less) && SortedBy(less, r)
    ensures SortedBy(less, t)
    ensures multiset(t) == multiset(r) + multiset{x}
  {
    var p := |r|;
    while 0 < p && less(x, r[p - 1])
      invariant 0 <= p <= |r|
      invariant forall i :: p <= i < |r| ==> less(x, r[i])
    {
      p := p - 1;
    }
    InsertKeepsOrder(less, r, x, p);
    InsertKeepsElements(r, x, p);
    t := r[..p] + [x] + r[p..];
  }

  lemma InsertKeepsElements<T>(r: seq<T>, x: T, p: nat)
    requires p <= |r|
    ensures multiset(r[..p] + [x] + r[p..]) == multiset(r) + multiset{x}
  {
    assert r == r[..p] + r[p..];
  }

  lemma InsertKeepsOrder<T(!new)>(less: (T, T) -> bool, r: seq<T>, x: T, p: nat)
    requires StrictWeakOrder(less) && SortedBy(less, r) && p <= |r|
    requires forall i :: p <= i < |r| ==> less(x, r[i])
    requires 0 < p ==> !less(x, r[p - 1])
    ensures SortedBy(less, r[..p] + [x] + r[p..])
  {
  }

  /** Every finite set has a sorted listing. */
  lemma {:induction false} SortedListing<T(!new)>(less: (T, T) -> bool, items: set<T>) returns (r: seq<T>)
    requires StrictWeakOrder(less)
    ensures SortedBy(less, r)
    ensures forall x :: x in r <==> x in items
    ensures forall i, j :: 0 <= i < j < |r| ==> r[i] != r[j]
    decreases |items|
  {
    if items == {} {
      r := [];
    } else {
      var x :| x in items;
      var t := SortedListing(less, items - {x});
      var p := Position(less, t, x);
      InsertKeepsOrder(less, t, x, p);
      InsertedMembers(t, x, p);
      r := t[..p] + [x] + t[p..];
    }
  }

  lemma {:induction false} Position<T(!new)>(less: (T, T) -> bool, t: seq<T>, x: T) returns (p: nat)
    requires StrictWeakOrder(less)
    ensures p <= |t| && (forall i :: p <= i < |t| ==> less(x, t[i])) && (0 < p ==> !less(x, t[p - 1]))
  {
    p := |t|;
    while 0 < p && less(x, t[p - 1])
      invariant 0 <= p <= |t|
      invariant forall i :: p <= i < |t| ==> less(x, t[i])
    {
      p := p - 1;
    }
  }

  lemma InsertedMembers<T>(t: seq<T>, x: T, p: nat)
    requires p <= |t| && x !in t && forall i, j :: 0 <= i < j < |t| ==> t[i] != t[j]
    ensures var r := t[..p] + [x] + t[p..];
            && (forall y :: y in r <==> y in t || y == x)
            && (forall i, j :: 0 <= i < j < |r| ==> r[i] != r[j])
  {
    assert t == t[..p] + t[p..];
  }

  lemma SameElements<T>(s: seq<T>, t: seq<T>)
    requires multiset(s) == multiset(t)
    ensures |s| == |t|
    ensures forall x :: x in s <==> x in t
    ensures (forall i, j :: 0 <= i < j < |s| ==> s[i] != s[j]) ==> (forall i, j :: 0 <= i < j < |t| ==> t[i] != t[j])
  {
    assert |multiset(s)| == |multiset(t)|;
    forall x ensures x in s <==> x in t {
      assert x in multiset(s) <==> x in multiset(t);
    }
    if forall i, j :: 0 <= i < j < |s| ==> s[i] != s[j] {
      forall i, j | 0 <= i < j < |t| ensures t[i] != t[j] {
        if t[i] == t[j] {
          CountTwice(t, i, j);
          CountOnce(s, t[i]);
        }
      }
    }
  }

  lemma CountTwice<T>(t: seq<T>, i: nat, j: nat)
    requires i < j < |t| && t[i] == t[j]
    ensures 2 <= multiset(t)[t[i]]
  {
    assert t == t[..i] + [t[i]] + t[i + 1..j] + [t[j]] + t[j + 1..];
  }

  lemma {:induction false} CountOnce<T>(s: seq<T>, x: T)
    requires forall i, j :: 0 <= i < j < |s| ==> s[i] != s[j]
    ensures multiset(s)[x] <= 1
  {
    if s != [] {
      assert s == [s[0]] + s[1..];
      CountOnce(s[1..], x);
      if s[0] == x {
        assert x !in s[1..];
        assert x !in multiset(s[1..]);
      }
    }
  }

  ghost predicate IsLeast(names: set<string>, m: string) {
    m in names && forall x :: x in names && x != m ==> StringLess(m, x)
  }

  lemma {:induction false} LeastExists(names: set<string>) returns (m: string)
    requires names != {}
    ensures IsLeast(names, m)
  {
    var x :| x in names;
    if names == {x} {
      m := x;
    } else {
      var m' := LeastExists(names - {x});
      m := SmallerOf(names, x, m');
    }
  }

  lemma SmallerOf(names: set<string>, x: string, m': string) returns (m: string)
    requires x in names && IsLeast(names - {x}, m')
    ensures IsLeast(names, m)
  {
    StringLessTotal(m', x);
    m := if StringLess(x, m') then x else m';
    forall y | y in names && y != m ensures StringLess(m, y) {
      if m == x && y != m' {
        StringLessTransitive(x, m', y);
      }
    }
  }

  /** The members of a set of strings in order. */
  ghost function InOrder(names: set<string>): seq<string> {
    if names == {} then [] else
    assert exists m :: IsLeast(names, m) by { var _ := LeastExists(names); }
    var m :| IsLeast(names, m);
    [m] + InOrder(names - {m})
  }

  lemma {:induction false} InOrderMeaning(names: set<string>)
    ensures SortedBy(StringLess, InOrder(names))
    ensures forall i, j :: 0 <= i < j < |InOrder(names)| ==> InOrder(names)[i] != InOrder(names)[j]
    ensures forall x :: x in InOrder(names) <==> x in names
  {
    if names != {} {
      var r := InOrder(names);
      var m := r[0];
      assert IsLeast(names, m) && r == [m] + InOrder(names - {m});
      InOrderMeaning(names - {m});
      StringLessIsWeakOrder();
      forall i | 1 <= i < |r| ensures r[i] in names && r[i] != m {
        assert r[i] == InOrder(names - {m})[i - 1];
        assert r[i] in InOrder(names - {m});
      }
    }
  }

  /** `sort.Strings` on an unordered listing of a set. */
  method SortedStrings(names: set<string>) returns (r: seq<string>)
    ensures r == InOrder(names)
  {
    StringLessIsWeakOrder();
    var listed: seq<string> := [];
    var rest := names;
    while rest != {}
      invariant forall i, j :: 0 <= i < j < |listed| ==> listed[i] != listed[j]
      invariant forall x :: x in names <==> x in listed || x in rest
      invariant forall x :: x in listed ==> x !in rest
    {
      var x :| x in rest;
      rest := rest - {x};
      listed := listed + [x];
    }
    r := SortSlice(StringLess, listed);
    SameElements(listed, r);
    InOrderMeaning(names);
    forall x, y | x in r && y in r && x != y ensures StringLess(x, y) || StringLess(y, x) {
      StringLessTotal(x, y);
    }
    SortedIsUnique(StringLess, r, InOrder(names));
  }
}
