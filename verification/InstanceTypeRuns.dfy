/** Runs of refreshes, lists, expiries and learned memory sizes: when a cached answer is the answer
    recomputed now. An entry of any cache may expire at any time. */
module InstanceTypeRuns {
  import opened Base
  import opened InstanceTypes

  datatype Step =
    | FetchTypes(types: seq<Flavor>)
    | FetchOfferings(types: seq<Flavor>, zones: set<string>)
    | FetchBoth(types: seq<Flavor>, zones: set<string>)
    | ListTypes(nc: NodeClass)
    | ExpireCached(key: CacheKey)
    | ForgetSeenTypes
    | ForgetSeenOfferings
    | LearnMemory(name: string, memoryMiB: int)
    | ForgetMemory(name: string)

  function Apply(s: State, step: Step): State {
    match step
    case FetchTypes(types) => UpdateTypes(s, types)
    case FetchOfferings(types, zones) => UpdateOfferings(s, types, zones)
    case FetchBoth(types, zones) => UpdateOfferings(UpdateTypes(s, types), types, zones)
    case ListTypes(nc) => ListState(s, nc)
    case ExpireCached(key) => s.(cache := s.cache - {key})
    case ForgetSeenTypes => s.(seenTypes := None)
    case ForgetSeenOfferings => s.(seenOfferings := None)
    case LearnMemory(name, memoryMiB) => Discover(s, name, memoryMiB)
    case ForgetMemory(name) => s.(discovered := s.discovered - {name})
  }

  function Run(steps: seq<Step>): State {
    if steps == [] then State(map[], map[], {}, map[], map[], None, None)
    else Apply(Run(steps[..|steps| - 1]), steps[|steps| - 1])
  }

  /** Flavor names are distinct in every fetch that updates the types. */
  ghost predicate CleanFetch(step: Step) {
    match step
    case FetchTypes(types) => DistinctNames(types)
    case FetchBoth(types, _) => DistinctNames(types)
    case _ => true
  }

  // ---------- equal keys ----------

  /** Everything resolution reads from a node class is in the cache key, though lists are keyed as
      sets and an empty runtime as the default one. */
  lemma EqualKeysResolveEqually(s: State, nc: NodeClass, nc': NodeClass)
    requires CacheKeyOf(nc) == CacheKeyOf(nc')
    ensures ComputeAll(s, nc) == ComputeAll(s, nc')
  {
  }

  // ---------- coherence ----------

  /** Equal, or (when `exact` is false) equal except for the memory size. */
  ghost predicate Agree(a: map<string, Resolved>, b: map<string, Resolved>, exact: bool) {
    && a.Keys == b.Keys
    && forall n :: n in a ==> a[n] == b[n] || (!exact && a[n].(memoryMiB := 0) == b[n].(memoryMiB := 0))
  }

  ghost predicate Coherent(s: State, exact: bool) {
    && (forall nc :: CacheKeyOf(nc) in s.cache ==> Agree(s.cache[CacheKeyOf(nc)], ComputeAll(s, nc), exact))
    && (s.seenTypes.Some? ==> IsContent(s.info, s.seenTypes.value))
    && (s.seenOfferings.Some? ==> s.seenOfferings.value == s.offerings)
    && (exact ==> s.discovered == map[])
  }

  /** `info` is the content `flavors`, keyed by name. */
  ghost predicate IsContent(info: map<string, Flavor>, flavors: set<Flavor>) {
    && (forall n :: n in info ==> info[n] in flavors && info[n].name == n)
    && (forall f :: f in flavors ==> f.name in info && info[f.name] == f)
  }

  lemma ContentIsUnique(a: map<string, Flavor>, b: map<string, Flavor>, flavors: set<Flavor>)
    requires IsContent(a, flavors) && IsContent(b, flavors)
    ensures a == b
  {
  }

  lemma SameInputsCompute(s: State, s': State, nc: NodeClass)
    requires s'.info == s.info && s'.offerings == s.offerings && s'.discovered == s.discovered
    ensures ComputeAll(s', nc) == ComputeAll(s, nc)
  {
    forall n | n in s.info ensures Compute(s', nc, n) == Compute(s, nc, n) {
    }
  }

  /** The cached types agree with recomputing as long as flavors, offerings and memories stay. */
  lemma SameInputsAgree(s: State, s': State, exact: bool)
    requires Coherent(s, exact)
    requires s'.info == s.info && s'.offerings == s.offerings && s'.discovered == s.discovered
    requires forall k :: k in s'.cache ==> k in s.cache && s'.cache[k] == s.cache[k]
    ensures forall nc :: CacheKeyOf(nc) in s'.cache ==> Agree(s'.cache[CacheKeyOf(nc)], ComputeAll(s', nc), exact)
  {
    forall nc | CacheKeyOf(nc) in s'.cache ensures Agree(s'.cache[CacheKeyOf(nc)], ComputeAll(s', nc), exact) {
      SameInputsCompute(s, s', nc);
    }
  }

  lemma TypesKeep(s: State, types: seq<Flavor>, exact: bool)
    requires Coherent(s, exact) && DistinctNames(types)
    ensures Coherent(UpdateTypes(s, types), exact)
  {
    var s' := UpdateTypes(s, types);
    var content := set f | f in types;
    ByNameMeaning(types);
    assert IsContent(s'.info, content);
    if s.seenTypes == Some(content) {
      ContentIsUnique(s.info, s'.info, content);
      SameInputsAgree(s, s', exact);
    }
  }

  lemma OfferingsKeep(s: State, types: seq<Flavor>, zones: set<string>, exact: bool)
    requires Coherent(s, exact)
    ensures Coherent(UpdateOfferings(s, types, zones), exact)
  {
    var s' := UpdateOfferings(s, types, zones);
    if s.seenOfferings == s'.seenOfferings {
      SameInputsAgree(s, s', exact);
    }
  }

  lemma ListKeeps(s: State, nc: NodeClass, exact: bool)
    requires Coherent(s, exact)
    ensures Coherent(ListState(s, nc), exact)
  {
    var s' := ListState(s, nc);
    forall other | CacheKeyOf(other) in s'.cache
      ensures Agree(s'.cache[CacheKeyOf(other)], ComputeAll(s', other), exact)
    {
      SameInputsCompute(s, s', other);
      if CacheKeyOf(other) !in s.cache {
        EqualKeysResolveEqually(s, nc, other);
      }
    }
  }

  /** Learned sizes change nothing but memory. */
  lemma MemoryKeeps(s: State, discovered: map<string, int>)
    requires Coherent(s, false)
    ensures Coherent(s.(discovered := discovered), false)
  {
    var s' := s.(discovered := discovered);
    forall nc | CacheKeyOf(nc) in s'.cache ensures Agree(s'.cache[CacheKeyOf(nc)], ComputeAll(s', nc), false) {
      assert Agree(s.cache[CacheKeyOf(nc)], ComputeAll(s, nc), false);
      MemoryMovesAlone(s, s', nc);
    }
  }

  lemma MemoryMovesAlone(s: State, s': State, nc: NodeClass)
    requires s' == s.(discovered := s'.discovered)
    ensures Agree(ComputeAll(s, nc), ComputeAll(s', nc), false)
  {
  }

  lemma StepKeeps(s: State, step: Step, exact: bool)
    requires Coherent(s, exact) && CleanFetch(step) && (exact ==> !step.LearnMemory?)
    ensures Coherent(Apply(s, step), exact)
  {
    match step
    case FetchTypes(types) => TypesKeep(s, types, exact);
    case FetchOfferings(types, zones) => OfferingsKeep(s, types, zones, exact);
    case FetchBoth(types, zones) =>
      TypesKeep(s, types, exact);
      OfferingsKeep(UpdateTypes(s, types), types, zones, exact);
    case ListTypes(nc) => ListKeeps(s, nc, exact);
    case LearnMemory(name, memoryMiB) => MemoryKeeps(s, Discover(s, name, memoryMiB).discovered);
    case ForgetMemory(name) =>
      if exact {
        SameInputsAgree(s, Apply(s, step), exact);
      } else {
        MemoryKeeps(s, s.discovered - {name});
      }
    case _ => SameInputsAgree(s, Apply(s, step), exact);
  }

  lemma {:induction false} CoherentAlways(steps: seq<Step>, exact: bool)
    requires forall i :: 0 <= i < |steps| ==> CleanFetch(steps[i]) && (exact ==> !steps[i].LearnMemory?)
    ensures Coherent(Run(steps), exact)
  {
    if steps != [] {
      CoherentAlways(steps[..|steps| - 1], exact);
      StepKeeps(Run(steps[..|steps| - 1]), steps[|steps| - 1], exact);
    }
  }

  // ---------- results ----------

  /** In every run without repeated flavor names and learned memory sizes, `List` and `Get` answer what
      recomputing from the current flavors and offerings would. */
  lemma {:induction false} HitIsRecomputation(steps: seq<Step>, nc: NodeClass, name: string)
    requires forall i :: 0 <= i < |steps| ==> CleanFetch(steps[i]) && !steps[i].LearnMemory?
    ensures Listed(Run(steps), nc) == ComputeAll(Run(steps), nc)
    ensures Got(Run(steps), nc, name) ==
              if name in Run(steps).info then Some(Compute(Run(steps), nc, name)) else None
  {
    CoherentAlways(steps, true);
    var s := Run(steps);
    assert CacheKeyOf(nc) in s.cache ==> s.cache[CacheKeyOf(nc)] == ComputeAll(s, nc);
  }

  /** In every run whose fetches repeat no flavor name, learned sizes included, a cached answer differs
      from a recomputed one at most in memory sizes. */
  lemma {:induction false} HitDiffersOnlyInMemory(steps: seq<Step>, nc: NodeClass)
    requires forall i :: 0 <= i < |steps| ==> CleanFetch(steps[i])
    ensures Listed(Run(steps), nc).Keys == ComputeAll(Run(steps), nc).Keys
    ensures forall n :: n in Listed(Run(steps), nc) ==>
              Listed(Run(steps), nc)[n].(memoryMiB := 0) == ComputeAll(Run(steps), nc)[n].(memoryMiB := 0)
  {
    CoherentAlways(steps, false);
  }

  /** Whatever was cached, in every run without repeated flavor names `List` answers exactly the current
      flavors and `Get` a current one, each described by the current tables, node class and zones; without
      learned memory sizes its memory is the flavor's. */
  lemma {:induction false} AnswersAreDescribed(steps: seq<Step>, nc: NodeClass, name: string)
    requires forall i :: 0 <= i < |steps| ==> CleanFetch(steps[i])
    ensures var s, answer := Run(steps), Listed(Run(steps), nc);
            && (name in answer <==> name in s.info)
            && (name in answer ==> DescribedButMemory(s, nc, name, answer[name]))
            && (Got(s, nc, name).Some? <==> name in s.info)
            && (Got(s, nc, name).Some? ==> DescribedButMemory(s, nc, name, Got(s, nc, name).value))
    ensures (forall i :: 0 <= i < |steps| ==> !steps[i].LearnMemory?) && name in Run(steps).info ==>
              && name in Listed(Run(steps), nc)
              && Listed(Run(steps), nc)[name].memoryMiB == Run(steps).info[name].ramMiB
              && Got(Run(steps), nc, name) == Some(Listed(Run(steps), nc)[name])
  {
    var s := Run(steps);
    CoherentAlways(steps, false);
    assert CacheKeyOf(nc) in s.cache ==> Agree(s.cache[CacheKeyOf(nc)], ComputeAll(s, nc), false);
    if name in s.info {
      ComputeIsDescribed(s, nc, name);
      SameButMemory(s, nc, name, Listed(s, nc)[name]);
      SameButMemory(s, nc, name, Got(s, nc, name).value);
    }
    if forall i :: 0 <= i < |steps| ==> !steps[i].LearnMemory? {
      HitIsRecomputation(steps, nc, name);
      CoherentAlways(steps, true);
    }
  }

  ghost predicate DescribedButMemory(s: State, nc: NodeClass, name: string, r: Resolved) {
    && name in s.info
    && var f := s.info[name];
       Describes(r, f, nc, if f.name in s.offerings then s.offerings[f.name] else {}, r.memoryMiB)
  }

  lemma SameButMemory(s: State, nc: NodeClass, name: string, r: Resolved)
    requires name in s.info && Described(s, nc, name, Compute(s, nc, name))
    requires r.(memoryMiB := 0) == Compute(s, nc, name).(memoryMiB := 0)
    ensures DescribedButMemory(s, nc, name, r)
  {
    var f, c := s.info[name], Compute(s, nc, name);
    var tier :| TierIs(f.ramMiB, tier) && PodsAre(f, nc, tier, c.pods)
             && MemoryOverheadIs(f.ramMiB, nc, tier, c.kubeReservedMiB, c.systemReservedMiB);
    assert PodsAre(f, nc, tier, r.pods) && MemoryOverheadIs(f.ramMiB, nc, tier, r.kubeReservedMiB, r.systemReservedMiB);
  }

  /** In any state `Get` finds what `List` lists, and a type that only the tables have yet. */
  lemma GetAgreesWithList(s: State, nc: NodeClass, name: string)
    ensures name in Listed(s, nc) ==> Got(s, nc, name) == Some(Listed(s, nc)[name])
    ensures name !in Listed(s, nc) && name in s.info ==>
              Got(s, nc, name).Some? && Described(s, nc, name, Got(s, nc, name).value)
    ensures name !in Listed(s, nc) && name !in s.info ==> Got(s, nc, name) == None
  {
    if name in s.info {
      ComputeIsDescribed(s, nc, name);
    }
  }

  /** Where a listed type is offered, in every run without repeated names: in its own zones when they are
      known, else wherever any flavor is offered. */
  lemma {:induction false} OfferedWhereKnown(steps: seq<Step>, nc: NodeClass, name: string, zone: string)
    requires forall i :: 0 <= i < |steps| ==> CleanFetch(steps[i])
    requires name in Listed(Run(steps), nc)
    ensures var s := Run(steps);
            zone in ZonesFor(s, Listed(s, nc)[name]) <==>
              if name in s.offerings then zone in s.offerings[name]
              else exists other :: other in s.offerings && zone in s.offerings[other]
  {
    AnswersAreDescribed(steps, nc, name);
    BuiltAlways(steps);
  }

  // ---------- when a cached answer goes stale ----------

  /** Kept by every step at all: what the change monitor saw is what the tables were built from. */
  ghost predicate Built(s: State) {
    && (forall n :: n in s.info ==> s.info[n].name == n)
    && s.allZones == AllZones(s.offerings)
    && (s.seenTypes.Some? ==> s.info.Keys == set f | f in s.seenTypes.value :: f.name)
    && (s.seenOfferings.Some? ==> s.seenOfferings.value == s.offerings)
  }

  lemma {:induction false} BuiltAlways(steps: seq<Step>)
    ensures Built(Run(steps))
  {
    if steps != [] {
      BuiltAlways(steps[..|steps| - 1]);
      match steps[|steps| - 1]
      case FetchTypes(types) => ByNameMeaning(types);
      case FetchBoth(types, _) => ByNameMeaning(types);
      case _ =>
    }
  }

  /** The node class's entry is cached and agrees with recomputing. */
  ghost predicate Current(s: State, nc: NodeClass) {
    CacheKeyOf(nc) in s.cache && s.cache[CacheKeyOf(nc)] == ComputeAll(s, nc)
  }

  /** Learning or forgetting a memory size flushes nothing: an entry that was right stays right exactly
      when the type is unknown or its memory stays the same. */
  lemma {:induction false} MemoryStaleIff(steps: seq<Step>, nc: NodeClass, name: string, memoryMiB: int)
    requires Current(Run(steps), nc)
    ensures var s := Run(steps);
            Current(Discover(s, name, memoryMiB), nc) <==>
              name in s.info ==>
                if name in s.discovered then s.discovered[name] <= memoryMiB else memoryMiB == s.info[name].ramMiB
    ensures var s := Run(steps);
            Current(Apply(s, ForgetMemory(name)), nc) <==>
              name in s.info && name in s.discovered ==> s.discovered[name] == s.info[name].ramMiB
  {
    BuiltAlways(steps);
    MemoryDecidesAt(Run(steps), Discover(Run(steps), name, memoryMiB), nc, name);
    MemoryDecidesAt(Run(steps), Apply(Run(steps), ForgetMemory(name)), nc, name);
  }

  function MemoryOf(s: State, name: string): int
    requires name in s.info
  {
    if name in s.discovered then s.discovered[name] else s.info[name].ramMiB
  }

  lemma MemoryDecides(s: State, s': State, nc: NodeClass)
    requires Current(s, nc) && s' == s.(discovered := s'.discovered)
    requires forall n :: n in s.info ==> s.info[n].name == n
    ensures Current(s', nc) <==> forall n :: n in s.info ==> MemoryOf(s', n) == MemoryOf(s, n)
  {
    var before, after := ComputeAll(s, nc), ComputeAll(s', nc);
    forall n | n in s.info ensures after[n] == before[n] <==> MemoryOf(s', n) == MemoryOf(s, n) {
      MemoryDecidesOne(s, s', nc, n);
    }
    MapsEqual(after, before);
  }

  lemma MemoryDecidesAt(s: State, s': State, nc: NodeClass, name: string)
    requires Current(s, nc) && s' == s.(discovered := s'.discovered)
    requires forall n :: n in s.info ==> s.info[n].name == n
    requires s'.discovered - {name} == s.discovered - {name}
    ensures Current(s', nc) <==> name in s.info ==> MemoryOf(s', name) == MemoryOf(s, name)
  {
    MemoryDecides(s, s', nc);
    forall n | n in s.info && n != name ensures MemoryOf(s', n) == MemoryOf(s, n) {
      assert n in s'.discovered - {name} <==> n in s.discovered - {name};
    }
  }

  lemma MemoryDecidesOne(s: State, s': State, nc: NodeClass, n: string)
    requires n in s.info && s.info[n].name == n && s' == s.(discovered := s'.discovered)
    ensures Compute(s', nc, n) == Compute(s, nc, n) <==> MemoryOf(s', n) == MemoryOf(s, n)
  {
  }

  /** Two flavors of one name that resolve to the same type; a learned memory size hides their own. */
  predicate ResolveAlike(a: Flavor, b: Flavor, nc: NodeClass, learned: bool) {
    && ArchOf(a) == ArchOf(b) && a.vcpus == b.vcpus
    && (KubeletOf(nc).maxPods.Some? || DefaultPods(a) == DefaultPods(b))
    && PodsByMemory(a.ramMiB) == PodsByMemory(b.ramMiB)
    && GoDiv(a.ramMiB * 25, 1024) == GoDiv(b.ramMiB * 25, 1024)
    && (learned || a.ramMiB == b.ramMiB)
  }

  /** The last flavors listed under each name resolve as the ones in the table do. */
  ghost predicate SameTypes(s: State, types: seq<Flavor>, nc: NodeClass) {
    forall n :: n in s.info ==>
      n in ByName(types) && ResolveAlike(s.info[n], ByName(types)[n], nc, n in s.discovered)
  }

  /** In every run: a fetch of the flavors seen last, in any order and with any repeats, flushes nothing,
      and an entry that was right stays right exactly when the last flavor listed under each name
      resolves as the one before did. When the zones are fetched too, a change in them flushes it. */
  lemma {:induction false} RefetchStaleIff(steps: seq<Step>, nc: NodeClass, types: seq<Flavor>, zones: set<string>)
    requires Current(Run(steps), nc)
    requires Run(steps).seenTypes == Some(set f | f in types)
    ensures var s := Run(steps); Current(UpdateTypes(s, types), nc) <==> SameTypes(s, types, nc)
    ensures var s := Run(steps);
            var s' := Apply(s, FetchBoth(types, zones));
            Listed(s', nc) == ComputeAll(s', nc) <==>
              s.seenOfferings != Some(ZonesByName(Universe(zones, types), types)) || SameTypes(s, types, nc)
  {
    var s := Run(steps);
    BuiltAlways(steps);
    TypesDecide(s, types, nc);
    var s1 := UpdateTypes(s, types);
    var s' := UpdateOfferings(s1, types, zones);
    if s'.seenOfferings == s.seenOfferings {
      SameInputsCompute(s1, s', nc);
    }
  }

  lemma TypesDecide(s: State, types: seq<Flavor>, nc: NodeClass)
    requires Built(s) && Current(s, nc) && s.seenTypes == Some(set f | f in types)
    ensures Current(UpdateTypes(s, types), nc) <==> SameTypes(s, types, nc)
  {
    var s' := UpdateTypes(s, types);
    ByNameMeaning(types);
    assert s'.info.Keys == s.info.Keys;
    TableDecides(s, s', nc);
  }

  lemma TableDecides(s: State, s': State, nc: NodeClass)
    requires Current(s, nc) && s'.info.Keys == s.info.Keys && s'.cache == s.cache
    requires forall n :: n in s.info ==> s.info[n].name == n == s'.info[n].name
    requires s'.offerings == s.offerings && s'.discovered == s.discovered
    ensures Current(s', nc) <==>
              forall n :: n in s.info ==> ResolveAlike(s.info[n], s'.info[n], nc, n in s.discovered)
  {
    var before, after := ComputeAll(s, nc), ComputeAll(s', nc);
    forall n | n in s.info
      ensures after[n] == before[n] <==> ResolveAlike(s.info[n], s'.info[n], nc, n in s.discovered)
    {
      AlikeDecides(s, s', nc, n);
    }
    MapsEqual(after, before);
  }

  lemma MapsEqual(a: map<string, Resolved>, b: map<string, Resolved>)
    requires a.Keys == b.Keys
    ensures a == b <==> forall n :: n in a ==> a[n] == b[n]
  {
  }

  lemma AlikeDecides(s: State, s': State, nc: NodeClass, n: string)
    requires n in s.info && n in s'.info && s.info[n].name == n == s'.info[n].name
    requires s'.offerings == s.offerings && s'.discovered == s.discovered
    ensures Compute(s', nc, n) == Compute(s, nc, n)
       <==> ResolveAlike(s.info[n], s'.info[n], nc, n in s.discovered)
  {
    AlikeMeansEqual(s.info[n], s'.info[n], ZonesOf(s, n), nc);
    assert ZonesOf(s', n) == ZonesOf(s, n);
  }

  lemma AlikeMeansEqual(a: Flavor, b: Flavor, zones: set<string>, nc: NodeClass)
    requires a.name == b.name
    ensures Resolve(a, zones, nc) == Resolve(b, zones, nc) <==> ResolveAlike(a, b, nc, false)
    ensures Resolve(a, zones, nc).(memoryMiB := 0) == Resolve(b, zones, nc).(memoryMiB := 0)
       <==> ResolveAlike(a, b, nc, true)
  {
  }

  lemma LastOfTwo(universe: set<string>, a: Flavor, b: Flavor)
    requires a.name == b.name
    ensures ByName([a, b]) == map[a.name := b]
    ensures ZonesByName(universe, [a, b]) == map[a.name := OfferingZones(universe, b.specs)]
  {
    assert [a, b][..1] == [a] && [a][..0] == [];
    assert ByName([a]) == map[a.name := a];
    assert ZonesByName(universe, [a]) == map[a.name := OfferingZones(universe, a.specs)];
  }

  /** A run in which two flavors of one name change places. */
  lemma {:induction false} RepeatedNameIsStale(nc: NodeClass)
    ensures var a, b := Flavor("1", "x", "2", 4096, None), Flavor("2", "x", "4", 8192, None);
            var s := Run([FetchBoth([a, b], {"z"}), ListTypes(nc)]);
            Current(s, nc) && !Current(UpdateTypes(s, [b, a]), nc)
  {
    var a, b := Flavor("1", "x", "2", 4096, None), Flavor("2", "x", "4", 8192, None);
    var steps := [FetchBoth([a, b], {"z"}), ListTypes(nc)];
    TwoFlavorsListed(a, b, nc);
    LastOfTwo({"z"}, b, a);
    assert (set f | f in [a, b]) == set f | f in [b, a];
    RefetchStaleIff(steps, nc, [b, a], {"z"});
    assert ByName([b, a])["x"].vcpus != Run(steps).info["x"].vcpus;
  }

  lemma TwoFlavorsListed(a: Flavor, b: Flavor, nc: NodeClass)
    requires a.name == b.name
    ensures var s := Run([FetchBoth([a, b], {"z"}), ListTypes(nc)]);
            && Current(s, nc) && s.info == map[a.name := b] && s.seenTypes == Some(set f | f in [a, b])
  {
    var first, list := FetchBoth([a, b], {"z"}), ListTypes(nc);
    assert [first, list][..1] == [first] && [first][..0] == [];
    LastOfTwo(Universe({"z"}, [a, b]), a, b);
    var s0: State := Run([]);
    var s1 := Apply(s0, first);
    assert Run([first]) == s1;
    assert s1.cache == map[] && s1.info == map[a.name := b] && a.name in s1.info && a.name in s1.offerings;
    SameInputsCompute(s1, ListState(s1, nc), nc);
  }

  /** After an update from one fetch, a flavor's zones are decided by its own status for the zone, then by
      its default status over all zones known; `allZones` is their union. */
  lemma ZonesAfterRefresh(s: State, types: seq<Flavor>, zones: set<string>, f: Flavor, nc: NodeClass, zone: string)
    requires DistinctNames(types) && f in types
    ensures var s' := UpdateOfferings(UpdateTypes(s, types), types, zones);
            && f.name in s'.info
            && (zone in ZonesFor(s', Compute(s', nc, f.name)) <==> SoldIn(types, zones, f, zone))
    ensures var s' := UpdateOfferings(UpdateTypes(s, types), types, zones);
            zone in s'.allZones <==> exists g :: g in types && SoldIn(types, zones, g, zone)
  {
    var universe := Universe(zones, types);
    var s' := UpdateOfferings(UpdateTypes(s, types), types, zones);
    ByNameMeaning(types);
    ZonesByNameMeaning(universe, types);
    forall g | g in types
      ensures g.name in s'.offerings && (zone in s'.offerings[g.name] <==> SoldIn(types, zones, g, zone))
    {
      OfferedMeansSold(types, zones, g, zone);
      assert s'.offerings[g.name] == OfferingZones(universe, g.specs);
    }
    if zone in s'.allZones {
      var n :| n in s'.offerings && zone in s'.offerings[n];
      assert ByName(types)[n] in types && ByName(types)[n].name == n;
    }
  }
}
