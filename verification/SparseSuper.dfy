/** The groups of an ext4 filesystem that hold a backup superblock, and the loop that counts them. */
module SparseSuper {
  import opened Base

  /** Go's `int64`: the verifier rejects every operation below that could leave this range. */
  newtype int64 = x: int | -0x8000_0000_0000_0000 <= x < 0x8000_0000_0000_0000

  function Pow(b: nat, k: nat): nat {
    if k == 0 then 1 else b * Pow(b, k - 1)
  }

  ghost predicate IsPowerFrom(b: nat, k: nat, g: int) {
    exists j: nat :: k <= j && Pow(b, j) == g
  }

  ghost predicate IsPower(b: nat, g: int) {
    IsPowerFrom(b, 1, g)
  }

  /** mke2fs's sparse_super rule: groups 0 and 1, and the positive powers of 3, 5 and 7. */
  ghost predicate HoldsSuper(g: int) {
    g == 0 || g == 1 || IsPower(3, g) || IsPower(5, g) || IsPower(7, g)
  }

  ghost function BackupGroups(n: int): set<int> {
    set g | 0 <= g < n && HoldsSuper(g)
  }

  /** How many of `group`, `group * b`, `group * b * b`, ... are below `n`. */
  function CountFrom(b: nat, group: nat, n: int): nat
    requires 2 <= b && 1 <= group
    decreases n - group
  {
    if group < n then 1 + CountFrom(b, group * b, n) else 0
  }

  function Copies(n: int): nat {
    if n <= 0 then 0 else 2 + CountFrom(3, 3, n) + CountFrom(5, 5, n) + CountFrom(7, 7, n)
  }

  // ---------- powers ----------

  lemma {:induction false} PowMonotone(b: nat, j: nat, k: nat)
    requires 1 <= b && j <= k
    ensures 1 <= Pow(b, j) <= Pow(b, k)
    decreases k
  {
    if j < k {
      PowMonotone(b, j, k - 1);
    } else if 0 < k {
      PowMonotone(b, j - 1, k - 1);
    }
  }

  lemma {:induction false} PowExceeds(b: nat, k: nat)
    requires 2 <= b
    ensures k < Pow(b, k)
  {
    if 0 < k {
      PowExceeds(b, k - 1);
    }
  }

  lemma TimesKeepsOff3(m: nat)
    requires m % 3 != 0
    ensures (5 * m) % 3 != 0 && (7 * m) % 3 != 0
  {
    var q, r := m / 3, m % 3;
    assert 5 * m == 3 * (5 * q) + 5 * r && 7 * m == 3 * (7 * q) + 7 * r;
  }

  lemma TimesKeepsOff5(m: nat)
    requires m % 5 != 0
    ensures (3 * m) % 5 != 0 && (7 * m) % 5 != 0
  {
    var q, r := m / 5, m % 5;
    assert 3 * m == 5 * (3 * q) + 3 * r && 7 * m == 5 * (7 * q) + 7 * r;
  }

  lemma TimesKeepsOff7(m: nat)
    requires m % 7 != 0
    ensures (3 * m) % 7 != 0 && (5 * m) % 7 != 0
  {
    var q, r := m / 7, m % 7;
    assert 3 * m == 7 * (3 * q) + 3 * r && 5 * m == 7 * (5 * q) + 5 * r;
  }

  /** No power of 3 is divisible by 5 or 7, and no power of 5 by 3 or 7, and so on. */
  lemma {:induction false} PowKeepsOffMultiples(b: nat, p: nat, k: nat)
    requires (b, p) in {(3, 5), (3, 7), (5, 3), (5, 7), (7, 3), (7, 5)}
    ensures Pow(b, k) % p != 0
  {
    if 0 < k {
      PowKeepsOffMultiples(b, p, k - 1);
      var m := Pow(b, k - 1);
      if p == 3 {
        TimesKeepsOff3(m);
      } else if p == 5 {
        TimesKeepsOff5(m);
      } else {
        TimesKeepsOff7(m);
      }
    }
  }

  lemma PowerIsMultiple(b: nat, g: int)
    requires b in {3, 5, 7} && IsPower(b, g)
    ensures g % b == 0
  {
  }

  /** Powers of two different bases never coincide. */
  lemma BasesDisjoint(b: nat, c: nat, g: int)
    requires b in {3, 5, 7} && c in {3, 5, 7} && b != c
    requires IsPower(b, g)
    ensures !IsPower(c, g)
  {
    var k: nat :| 1 <= k && Pow(b, k) == g;
    PowKeepsOffMultiples(b, c, k);
    if IsPower(c, g) {
      PowerIsMultiple(c, g);
    }
  }

  // ---------- counting ----------

  ghost function PowersFrom(b: nat, k: nat, n: int): set<int>
    requires 2 <= b
  {
    set g | 0 <= g < n && IsPowerFrom(b, k, g)
  }

  lemma {:induction false} CountIsCardinality(b: nat, k: nat, n: int)
    requires 2 <= b && 1 <= Pow(b, k)
    ensures CountFrom(b, Pow(b, k), n) == |PowersFrom(b, k, n)|
    decreases n - Pow(b, k)
  {
    var group := Pow(b, k);
    if group < n {
      assert Pow(b, k + 1) == group * b;
      PowMonotone(b, k, k + 1);
      CountIsCardinality(b, k + 1, n);
      forall g: int {
        LaterPowersAreLarger(b, k, g);
      }
      assert PowersFrom(b, k, n) == PowersFrom(b, k + 1, n) + {group};
    } else {
      forall j: nat | k <= j ensures n <= Pow(b, j) {
        PowMonotone(b, k, j);
      }
      assert PowersFrom(b, k, n) == {};
    }
  }

  lemma PowersAreAtLeastBase(b: nat, g: int)
    requires 2 <= b && IsPower(b, g)
    ensures b <= g
  {
    var k: nat :| 1 <= k && Pow(b, k) == g;
    PowMonotone(b, 1, k);
    assert Pow(b, 1) == b;
  }

  lemma BackupGroupsSplit(n: int)
    requires 2 <= n
    ensures BackupGroups(n) == {0, 1} + (PowersFrom(3, 1, n) + (PowersFrom(5, 1, n) + PowersFrom(7, 1, n)))
  {
  }

  lemma BackupGroupsDisjoint(n: int)
    ensures var p3, p5, p7 := PowersFrom(3, 1, n), PowersFrom(5, 1, n), PowersFrom(7, 1, n);
            p5 !! p7 && p3 !! p5 + p7 && {0, 1} !! p3 + (p5 + p7)
  {
    var p3, p5, p7 := PowersFrom(3, 1, n), PowersFrom(5, 1, n), PowersFrom(7, 1, n);
    forall g | g in p5 ensures g !in p7 { BasesDisjoint(5, 7, g); }
    forall g | g in p3 ensures g !in p5 + p7 { BasesDisjoint(3, 5, g); BasesDisjoint(3, 7, g); }
    forall g | g in p3 + (p5 + p7) ensures 2 <= g {
      PowersAreAtLeastBase(if g in p3 then 3 else if g in p5 then 5 else 7, g);
    }
  }

  lemma DisjointSizes(a: set<int>, b: set<int>)
    requires a !! b
    ensures |a + b| == |a| + |b|
  {
  }

  /** The count is right for every group count but one: a one-group filesystem has a single
      superblock (group 0), and the count says two. */
  lemma CopiesCountBackupGroups(n: int)
    ensures Copies(n) == |BackupGroups(n)| <==> n != 1
  {
    if n <= 0 {
      assert BackupGroups(n) == {};
    } else if n == 1 {
      assert BackupGroups(1) == {0};
    } else {
      var p3, p5, p7 := PowersFrom(3, 1, n), PowersFrom(5, 1, n), PowersFrom(7, 1, n);
      CountIsCardinality(3, 1, n);
      CountIsCardinality(5, 1, n);
      CountIsCardinality(7, 1, n);
      BackupGroupsSplit(n);
      BackupGroupsDisjoint(n);
      DisjointSizes(p5, p7);
      DisjointSizes(p3, p5 + p7);
      DisjointSizes({0, 1}, p3 + (p5 + p7));
    }
  }

  /** Fewer than `k + 1` powers lie below `b` to the `k + 1`: the logarithmic bound. */
  lemma {:induction false} CountBound(b: nat, group: nat, n: int, k: nat)
    requires 2 <= b && 1 <= group
    requires n <= group * Pow(b, k)
    ensures CountFrom(b, group, n) <= k
    decreases k
  {
    if group < n {
      if k == 0 {
        assert false;
      } else {
        assert group * Pow(b, k) == (group * b) * Pow(b, k - 1);
        CountBound(b, group * b, n, k - 1);
      }
    }
  }

  /** One more group adds one backup exactly when the new group index is a power of the base. */
  lemma {:induction false} CountGrowth(b: nat, k: nat, n: nat)
    requires 2 <= b && 1 <= Pow(b, k)
    ensures CountFrom(b, Pow(b, k), n + 1) == CountFrom(b, Pow(b, k), n) + if IsPowerFrom(b, k, n) then 1 else 0
    decreases n - Pow(b, k)
  {
    var group := Pow(b, k);
    assert Pow(b, k + 1) == group * b;
    PowMonotone(b, k, k + 1);
    LaterPowersAreLarger(b, k, n);
    if group < n {
      CountGrowth(b, k + 1, n);
    } else if group == n {
      assert CountFrom(b, group * b, n + 1) == 0;
    }
  }

  lemma LaterPowersAreLarger(b: nat, k: nat, n: int)
    requires 2 <= b
    ensures IsPowerFrom(b, k + 1, n) ==> Pow(b, k) < n
    ensures IsPowerFrom(b, k, n) <==> Pow(b, k) == n || IsPowerFrom(b, k + 1, n)
  {
    if IsPowerFrom(b, k + 1, n) {
      var j: nat :| k + 1 <= j && Pow(b, j) == n;
      NextPowerIsLarger(b, k);
      PowMonotone(b, k + 1, j);
    }
    if IsPowerFrom(b, k, n) {
      var j: nat :| k <= j && Pow(b, j) == n;
      assert j == k || k + 1 <= j;
    }
  }

  lemma NextPowerIsLarger(b: nat, k: nat)
    requires 2 <= b
    ensures Pow(b, k) < Pow(b, k + 1)
  {
    PowMonotone(b, 0, k);
    ProductMonotone(2, b, Pow(b, k));
  }

  /** At most one base accounts for a new group, so the total grows by one or not at all. */
  lemma CopiesGrowth(n: nat)
    requires 2 <= n
    ensures Copies(n + 1) == Copies(n) + if HoldsSuper(n) then 1 else 0
  {
    CountGrowth(3, 1, n);
    CountGrowth(5, 1, n);
    CountGrowth(7, 1, n);
    if IsPower(3, n) {
      BasesDisjoint(3, 5, n);
      BasesDisjoint(3, 7, n);
    }
    if IsPower(5, n) {
      BasesDisjoint(5, 7, n);
    }
  }

  // ---------- the loop ----------

  /** The counting loop on 64-bit integers. Its guard leaves before a product could pass the
      group count, so no multiplication overflows. */
  method SparseSuperGroupCopies(groupCount: int64) returns (copies: int64)
    ensures copies as int == Copies(groupCount as int)
  {
    if groupCount <= 0 {
      return 0;
    }
    copies := 2;
    var bases: seq<int64> := [3, 5, 7];
    for i := 0 to 3
      invariant i == 0 ==> copies == 2
      invariant i == 1 ==> copies as int == 2 + CountFrom(3, 3, groupCount as int)
      invariant i == 2 ==> copies as int == 2 + CountFrom(3, 3, groupCount as int) + CountFrom(5, 5, groupCount as int)
      invariant i == 3 ==> copies as int == Copies(groupCount as int)
      invariant copies as int <= 2 + 40 * i
    {
      var base := bases[i];
      ghost var before := copies as int;
      ghost var total := CountFrom(base as int, base as int, groupCount as int);
      assert total <= 40 by { CountsFitLog(base as int, groupCount as int); }
      var group := base;
      while group < groupCount
        invariant base <= group
        invariant before <= copies as int <= before + total
        invariant copies as int + CountFrom(base as int, group as int, groupCount as int) == before + total
        decreases groupCount - group
      {
        copies := copies + 1;
        if group > (groupCount - 1) / base {
          GuardStops(base as int, group as int, groupCount as int);
          break;
        }
        GuardContinues(base as int, group as int, groupCount as int);
        group := group * base;
      }
      assert copies as int == before + total;
    }
  }

  lemma GuardStops(b: nat, group: nat, n: int)
    requires 2 <= b && 1 <= group < n && group > (n - 1) / b
    ensures CountFrom(b, group, n) == 1
  {
    var q := (n - 1) / b;
    assert n - 1 == q * b + (n - 1) % b;
    ProductMonotone(q + 1, group, b);
    assert (q + 1) * b == q * b + b;
  }

  lemma GuardContinues(b: nat, group: nat, n: int)
    requires 2 <= b && 1 <= group < n && group <= (n - 1) / b
    ensures group < group * b < n
    ensures CountFrom(b, group, n) == 1 + CountFrom(b, group * b, n)
  {
    var q := (n - 1) / b;
    assert n - 1 == q * b + (n - 1) % b;
    ProductMonotone(group, q, b);
    ProductMonotone(2, b, group);
  }

  lemma KnownPowers()
    ensures Pow(3, 13) == 1594323 && Pow(3, 14) == 4782969
    ensures Pow(3, 20) == 3486784401 && Pow(3, 40) == 12157665459056928801
    ensures Pow(5, 8) == 390625 && Pow(5, 9) == 1953125
    ensures Pow(7, 7) == 823543 && Pow(7, 8) == 5764801
  {
    assert Pow(3, 4) == 81 && Pow(3, 3) == 27 && Pow(5, 4) == 625 && Pow(7, 4) == 2401;
    PowSum(3, 3, 10); PowSum(3, 4, 10); PowSum(3, 5, 5); PowSum(3, 10, 10); PowSum(3, 20, 20);
    assert Pow(3, 5) == 243;
    PowSum(5, 4, 4); PowSum(7, 4, 4);
    assert Pow(5, 9) == 5 * Pow(5, 8);
    assert Pow(7, 8) == 7 * Pow(7, 7);
  }

  lemma CountsFitLog(b: nat, n: int)
    requires b in {3, 5, 7} && n <= 0x7FFF_FFFF_FFFF_FFFF
    ensures CountFrom(b, b, n) <= 40
  {
    KnownPowers();
    PowBaseMonotone(3, b, 40);
    PowSum(b, 1, 40);
    PowMonotone(b, 40, 41);
    CountBound(b, b, n, 40);
  }

  lemma {:induction false} PowSum(b: nat, j: nat, k: nat)
    ensures Pow(b, j + k) == Pow(b, j) * Pow(b, k)
  {
    if 0 < j {
      PowSum(b, j - 1, k);
      assert Pow(b, j + k) == b * Pow(b, j - 1 + k);
      assert b * (Pow(b, j - 1) * Pow(b, k)) == (b * Pow(b, j - 1)) * Pow(b, k);
    }
  }

  lemma {:induction false} PowBaseMonotone(b: nat, c: nat, k: nat)
    requires b <= c
    ensures Pow(b, k) <= Pow(c, k)
  {
    if 0 < k {
      PowBaseMonotone(b, c, k - 1);
      ProductMonotone(b, c, Pow(b, k - 1));
      ProductMonotone(Pow(b, k - 1), Pow(c, k - 1), c);
    }
  }
}
