/** The cache of offerings that were recently refused, each suppressed for one TTL. */
module OfferingCache {
  import opened Base

  /** The key's last suppressed instant; `None` when the TTL is not positive and entries never expire. */
  type Entries = map<string, Option<int>>

  function Key(capacityType: string, instanceType: string, zone: string): string {
    capacityType + "/" + instanceType + "/" + zone
  }

  predicate Suppressed(entries: Entries, key: string, now: int) {
    key in entries && (entries[key].None? || now <= entries[key].value)
  }

  function Mark(entries: Entries, key: string, ttl: int, now: int): Entries {
    entries[key := if 0 < ttl then Some(now + ttl) else None]
  }

  function Sweep(entries: Entries, now: int): Entries {
    map key | key in entries && Suppressed(entries, key, now) :: entries[key]
  }

  class Cache {
    const ttl: int
    var entries: Entries

    constructor (ttl: int)
      ensures this.ttl == ttl && entries == map[]
    {
      this.ttl, entries := ttl, map[];
    }

    method MarkUnavailable(capacityType: string, instanceType: string, zone: string, now: int)
      modifies this
      ensures entries == Mark(old(entries), Key(capacityType, instanceType, zone), ttl, now)
    {
      var key := Key(capacityType, instanceType, zone);
      entries := entries[key := if 0 < ttl then Some(now + ttl) else None];
    }

    method IsUnavailable(capacityType: string, instanceType: string, zone: string, now: int) returns (r: bool)
      ensures r <==> Suppressed(entries, Key(capacityType, instanceType, zone), now)
    {
      var key := Key(capacityType, instanceType, zone);
      r := key in entries && (entries[key].None? || now <= entries[key].value);
    }
  }

  // ---------- joined names ----------

  lemma FirstSlash(a: string, s: string)
    requires '/' !in a
    ensures (a + "/" + s)[|a|] == '/'
    ensures forall i :: 0 <= i < |a| ==> (a + "/" + s)[i] != '/'
  {
  }

  lemma SplitAtSlash(a: string, b: string, s: string, t: string)
    requires '/' !in a && '/' !in b
    requires a + "/" + s == b + "/" + t
    ensures a == b && s == t
  {
    FirstSlash(a, s);
    FirstSlash(b, t);
    var x, y := a + "/" + s, b + "/" + t;
    assert |a| == |b|;
    assert x[..|a|] == a && y[..|b|] == b;
    assert x[|a| + 1..] == s && y[|b| + 1..] == t;
  }

  /** Two offerings share a key only when they are the same, provided neither of the first two
      parts contains the separator. */
  lemma KeyInjective(ct: string, it: string, z: string, ct': string, it': string, z': string)
    requires '/' !in ct && '/' !in ct' && '/' !in it && '/' !in it'
    ensures Key(ct, it, z) == Key(ct', it', z') <==> ct == ct' && it == it' && z == z'
  {
    if Key(ct, it, z) == Key(ct', it', z') {
      assert ct + "/" + it + "/" + z == ct + "/" + (it + "/" + z);
      assert ct' + "/" + it' + "/" + z' == ct' + "/" + (it' + "/" + z');
      SplitAtSlash(ct, ct', it + "/" + z, it' + "/" + z');
      SplitAtSlash(it, it', z, z');
    }
  }
}
