/** The instance-type provider: an object whose fields are replaced and whose cache is flushed. */
module InstanceTypeProvider {
  import opened Base
  import opened Ordering
  import opened Offerings
  import opened InstanceTypes
  import CondOperationAZ
  import OfferingCache

  class Provider {
    const availability: OfferingCache.Cache
    var info: map<string, Flavor>
    var offerings: map<string, set<string>>
    var allZones: set<string>
    var cache: map<CacheKey, map<string, Resolved>>
    var discovered: map<string, int>
    var seenTypes: Option<set<Flavor>>
    var seenOfferings: Option<map<string, set<string>>>

    ghost function Value(): State
      reads this
    {
      State(info, offerings, allZones, cache, discovered, seenTypes, seenOfferings)
    }

    constructor (availability: OfferingCache.Cache)
      ensures this.availability == availability
      ensures Value() == State(map[], map[], {}, map[], map[], None, None)
    {
      this.availability := availability;
      info, offerings, allZones, cache, discovered := map[], map[], {}, map[], map[];
      seenTypes, seenOfferings := None, None;
    }

    method UpdateInstanceTypesLocked(types: seq<Flavor>)
      modifies this
      ensures Value() == UpdateTypes(old(Value()), types)
    {
      var content := set f | f in types;
      if seenTypes != Some(content) {
        seenTypes := Some(content);
        cache := map[];
      }
      var byName: map<string, Flavor> := map[];
      for i := 0 to |types|
        invariant byName == ByName(types[..i])
      {
        assert types[..i + 1][..i] == types[..i];
        byName := byName[types[i].name := types[i]];
      }
      assert types[..|types|] == types;
      info := byName;
    }

    /** The overrides are applied in whatever order the map yields them. */
    method ResolveOfferingZones(universe: set<string>, specs: Option<ExtraSpecs>) returns (zones: set<string>)
      ensures zones == OfferingZones(universe, specs)
    {
      var defaultStatus := "normal";
      if specs.Some? && specs.value.status.Some? && specs.value.status.value != "" {
        defaultStatus := specs.value.status.value;
      }
      var overrides: map<string, string> := map[];
      if specs.Some? && specs.value.azStatus.Some? && specs.value.azStatus.value != "" {
        overrides := CondOperationAZ.ParseCondOperationAZ(specs.value.azStatus.value);
      }
      EmptyHasNoOverrides();
      assert overrides == OverridesOf(specs);
      assert StatusAvailable("normal") by { assert CondOperationAZ.TrimSpace("normal") == "normal"; }
      zones := {};
      if StatusAvailable(defaultStatus) {
        zones := universe;
      }
      ghost var start := zones;
      var rest := overrides.Keys;
      while rest != {}
        invariant rest <= overrides.Keys
        invariant forall z :: z in zones <==>
                    if z in overrides.Keys - rest then StatusAvailable(overrides[z]) else z in start
      {
        var zone :| zone in rest;
        rest := rest - {zone};
        if StatusAvailable(overrides[zone]) {
          zones := zones + {zone};
        } else {
          zones := zones - {zone};
        }
      }
    }

    method ZoneUniverse(types: seq<Flavor>, zones: set<string>) returns (universe: set<string>)
      ensures universe == Universe(zones, types)
    {
      universe := zones;
      for i := 0 to |types|
        invariant forall z :: z in universe <==>
                  z in zones || exists j :: 0 <= j < i && z in OverridesOf(types[j].specs)
      {
        var specs := types[i].specs;
        if specs.None? || specs.value.azStatus.None? {
          continue;
        }
        var overrides := CondOperationAZ.ParseCondOperationAZ(specs.value.azStatus.value);
        universe := universe + overrides.Keys;
      }
    }

    method UpdateInstanceTypeOfferingsLocked(types: seq<Flavor>, zones: set<string>)
      modifies this
      ensures Value() == UpdateOfferings(old(Value()), types, zones)
    {
      var universe := ZoneUniverse(types, zones);
      var found: map<string, set<string>> := map[];
      for i := 0 to |types|
        invariant found == ZonesByName(universe, types[..i])
        invariant Value() == old(Value())
      {
        assert types[..i + 1][..i] == types[..i];
        var resolved := ResolveOfferingZones(universe, types[i].specs);
        found := found[types[i].name := resolved];
      }
      assert types[..|types|] == types;
      if seenOfferings != Some(found) {
        seenOfferings := Some(found);
        cache := map[];
      }
      offerings := found;
      allZones := AllZones(found);
    }

    /** One fetch, both updates under one lock; a failed fetch changes nothing. */
    method Refresh(types: Result<seq<Flavor>, string>, zones: Result<set<string>, string>) returns (failed: bool)
      modifies this
      ensures failed <==> types.Err? || zones.Err?
      ensures Value() == if failed then old(Value())
                         else UpdateOfferings(UpdateTypes(old(Value()), types.value), types.value, zones.value)
    {
      if types.Err? || zones.Err? {
        return true;
      }
      UpdateInstanceTypesLocked(types.value);
      UpdateInstanceTypeOfferingsLocked(types.value, zones.value);
      return false;
    }

    method ResolveOne(nc: NodeClass, name: string) returns (r: Resolved)
      requires name in info
      ensures r == Compute(Value(), nc, name)
    {
      var flavor := info[name];
      r := Resolve(flavor, if flavor.name in offerings then offerings[flavor.name] else {}, nc);
      if r.name in discovered {
        r := r.(memoryMiB := discovered[r.name]);
      }
    }

    method ResolveAll(nc: NodeClass) returns (resolved: map<string, Resolved>)
      ensures resolved == ComputeAll(Value(), nc)
    {
      resolved := map[];
      var rest := info.Keys;
      while rest != {}
        invariant rest <= info.Keys
        invariant resolved.Keys == info.Keys - rest
        invariant forall name :: name in resolved ==> resolved[name] == Compute(Value(), nc, name)
      {
        var name :| name in rest;
        var r := ResolveOne(nc, name);
        rest := rest - {name};
        resolved := resolved[name := r];
      }
    }

    /** The cached part of `List`. */
    method Types(nc: NodeClass) returns (r: Result<map<string, Resolved>, string>)
      modifies this`cache
      ensures Value() == ListState(old(Value()), nc)
      ensures r.Ok? <==> Ready(old(Value()))
      ensures r.Ok? ==> r.value == Listed(old(Value()), nc)
    {
      if info == map[] {
        return Err("no instance types found");
      }
      if offerings == map[] {
        return Err("no instance types offerings found");
      }
      var key := CacheKeyOf(nc);
      if key in cache {
        return Ok(cache[key]);
      }
      var resolved := ResolveAll(nc);
      cache := cache[key := resolved];
      return Ok(resolved);
    }

    /** The types with the offerings injected; `prices` stands for the pricing provider. */
    method List(nc: NodeClass, now: int, prices: string -> real)
      returns (r: Result<map<string, (Resolved, seq<Offering>)>, string>)
      modifies this`cache
      ensures Value() == ListState(old(Value()), nc)
      ensures r.Ok? <==> old(info) != map[] && old(offerings) != map[]
      ensures r.Ok? && CacheKeyOf(nc) !in old(cache) ==>
                AllDescribed(old(Value()), nc, map n | n in r.value :: r.value[n].0)
      ensures r.Ok? ==>
                && r.value.Keys == Listed(old(Value()), nc).Keys
                && forall n :: n in r.value ==>
                     && r.value[n].0 == Listed(old(Value()), nc)[n]
                     && IsOfferingList(r.value[n].0, r.value[n].1, now, prices(r.value[n].0.name))
    {
      var listed := Types(nc);
      if listed.Err? {
        return Err(listed.error);
      }
      if CacheKeyOf(nc) !in old(cache) {
        UncachedAreDescribed(old(Value()), nc);
      }
      var out := InjectOfferings(listed.value, now, prices);
      assert (map n | n in out :: out[n].0) == listed.value;
      return Ok(out);
    }

    /** Adds its offerings to each type, in whatever order the list has them. */
    method InjectOfferings(types: map<string, Resolved>, now: int, prices: string -> real)
      returns (out: map<string, (Resolved, seq<Offering>)>)
      ensures out.Keys == types.Keys
      ensures forall n :: n in out ==>
                out[n].0 == types[n] && IsOfferingList(out[n].0, out[n].1, now, prices(out[n].0.name))
    {
      out := map[];
      var rest := types.Keys;
      while rest != {}
        invariant rest <= types.Keys && out.Keys == types.Keys - rest
        invariant forall n :: n in out ==>
                    out[n].0 == types[n] && IsOfferingList(out[n].0, out[n].1, now, prices(out[n].0.name))
      {
        var n :| n in rest;
        var offered := CreateOfferings(types[n], now, prices(types[n].name));
        rest := rest - {n};
        out := out[n := (types[n], offered)];
      }
    }

    /** `out` has exactly one offering per zone, in zone order, each available unless suppressed now. */
    ghost predicate IsOfferingList(r: Resolved, out: seq<Offering>, now: int, price: real)
      reads this, availability
    {
      && (forall i, j :: 0 <= i < j < |out| ==> StringLess(out[i].zone, out[j].zone))
      && (forall z :: z in ZonesFor(Value(), r) <==> exists i :: 0 <= i < |out| && out[i].zone == z)
      && (forall i :: 0 <= i < |out| ==>
            && out[i].capacityType == ON_DEMAND && out[i].price == price
            && (out[i].available <==>
                  !OfferingCache.Suppressed(
                    availability.entries, OfferingCache.Key(ON_DEMAND, r.name, out[i].zone), now)))
    }

    /** One offering per zone, in zone order, unavailable while the zone's offering is suppressed. */
    method CreateOfferings(r: Resolved, now: int, price: real) returns (out: seq<Offering>)
      ensures IsOfferingList(r, out, now, price)
    {
      var zones := r.zones;
      if zones == {} {
        if r.name in offerings {
          zones := offerings[r.name];
        } else {
          zones := allZones;
        }
      }
      var sorted := SortedStrings(zones);
      InOrderMeaning(zones);
      out := [];
      for i := 0 to |sorted|
        invariant |out| == i
        invariant forall k :: 0 <= k < i ==>
                    && out[k].zone == sorted[k] && out[k].capacityType == ON_DEMAND && out[k].price == price
                    && (out[k].available <==>
                          !OfferingCache.Suppressed(
                            availability.entries, OfferingCache.Key(ON_DEMAND, r.name, sorted[k]), now))
      {
        var unavailable := availability.IsUnavailable(ON_DEMAND, r.name, sorted[i], now);
        out := out + [Offering(ON_DEMAND, sorted[i], !unavailable, price)];
      }
      forall i, j | 0 <= i < j < |out| ensures StringLess(out[i].zone, out[j].zone) {
        StringLessTotal(sorted[i], sorted[j]);
      }
      forall z | z in zones ensures exists i :: 0 <= i < |out| && out[i].zone == z {
        assert z in sorted;
        var i :| 0 <= i < |sorted| && sorted[i] == z;
        assert out[i].zone == z;
      }
      forall i | 0 <= i < |out| ensures out[i].zone in zones {
        assert sorted[i] in sorted;
      }
    }

    method Get(nc: NodeClass, name: string, now: int, prices: string -> real)
      returns (r: Result<(Resolved, seq<Offering>), string>)
      ensures r.Ok? <==> info != map[] && offerings != map[] && Got(Value(), nc, name).Some?
      ensures r.Ok? && !(CacheKeyOf(nc) in cache && name in cache[CacheKeyOf(nc)]) ==>
                Described(Value(), nc, name, r.value.0)
      ensures r.Ok? ==> Got(Value(), nc, name) == Some(r.value.0)
                        && IsOfferingList(r.value.0, r.value.1, now, prices(r.value.0.name))
    {
      if info == map[] {
        return Err("no instance types found");
      }
      if offerings == map[] {
        return Err("no instance types offerings found");
      }
      var found: Option<Resolved> := None;
      if CacheKeyOf(nc) in cache && name in cache[CacheKeyOf(nc)] {
        found := Some(cache[CacheKeyOf(nc)][name]);
      }
      if found == None {
        if name !in info {
          return Err("instance type not found in cache");
        }
        var resolved := ResolveOne(nc, name);
        ComputeIsDescribed(Value(), nc, name);
        found := Some(resolved);
      }
      var offered := CreateOfferings(found.value, now, prices(found.value.name));
      return Ok((found.value, offered));
    }

    /** Learns a smaller (or equal) memory size from a running node. */
    method UpdateInstanceTypeCapacityFromNode(name: string, memoryMiB: int)
      modifies this`discovered
      ensures Value() == Discover(old(Value()), name, memoryMiB)
    {
      if name !in discovered || memoryMiB <= discovered[name] {
        discovered := discovered[name := memoryMiB];
      }
    }
  }
}
