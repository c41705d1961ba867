/** Instance types as resolved from flavors, the zones they are offered in, and the provider's
    memory of both, as values. */
module InstanceTypes {
  import opened Base
  import CondOperationAZ
  import Ext4

  datatype ExtraSpecs = ExtraSpecs(status: Option<string>, azStatus: Option<string>, arch: Option<string>,
                                   nicCap: Option<int>)

  datatype Flavor = Flavor(id: string, name: string, vcpus: string, ramMiB: int, specs: Option<ExtraSpecs>)

  // ---------- zones ----------

  predicate StatusAvailable(status: string) {
    CondOperationAZ.TrimSpace(status) !in ["abandon", "sellout", "obt_sellout"]
  }

  predicate DefaultAvailable(specs: Option<ExtraSpecs>) {
    if specs.Some? && specs.value.status.Some? && specs.value.status.value != ""
    then StatusAvailable(specs.value.status.value) else true
  }

  function OverridesOf(specs: Option<ExtraSpecs>): map<string, string> {
    if specs.Some? && specs.value.azStatus.Some? then CondOperationAZ.Overrides(specs.value.azStatus.value) else map[]
  }

  /** Every zone the API lists or some flavor names. */
  function Universe(zones: set<string>, types: seq<Flavor>): set<string> {
    zones + set i, z | 0 <= i < |types| && z in OverridesOf(types[i].specs) :: z
  }

  /** A zone is offered if its override is available, or it has none and the default covers it. */
  predicate Offered(universe: set<string>, specs: Option<ExtraSpecs>, zone: string) {
    var overrides := OverridesOf(specs);
    if zone in overrides then StatusAvailable(overrides[zone]) else DefaultAvailable(specs) && zone in universe
  }

  function OfferingZones(universe: set<string>, specs: Option<ExtraSpecs>): set<string> {
    set z | z in universe + OverridesOf(specs).Keys && Offered(universe, specs, z)
  }

  // ---------- resolving a flavor for a node class ----------

  datatype Kubelet = Kubelet(maxPods: Option<int>, kubeReserved: map<string, string>,
                             systemReserved: map<string, string>)

  datatype NodeClass = NodeClass(kubelet: Option<Kubelet>, runtime: Option<string>, rootGiB: int,
                                 k8s: Ext4.BlockDevice, users: seq<int>, rest: string)

  /** The content the cache key hashes; lists count as sets. */
  datatype CacheKey = CacheKey(kubelet: Kubelet, runtime: string, rootGiB: int, k8s: Ext4.BlockDevice, users: set<int>)

  function KubeletOf(nc: NodeClass): Kubelet {
    if nc.kubelet.Some? then nc.kubelet.value else Kubelet(None, map[], map[])
  }

  function RuntimeOf(nc: NodeClass): string {
    if nc.runtime.Some? && nc.runtime.value != "" then nc.runtime.value else "containerd"
  }

  function CacheKeyOf(nc: NodeClass): CacheKey {
    CacheKey(KubeletOf(nc), RuntimeOf(nc), nc.rootGiB, nc.k8s, set u | u in nc.users)
  }

  datatype Resolved = Resolved(name: string, arch: string, vcpus: string, zones: set<string>, memoryMiB: int, pods: int,
                               storage: int, kubeReservedMiB: int, systemReservedMiB: int,
                               kubeReserved: map<string, string>, systemReserved: map<string, string>)

  function PodsByMemory(ramMiB: int): int {
    if 65536 <= ramMiB then 110
    else if 32768 <= ramMiB then 80
    else if 16384 <= ramMiB then 60
    else if 8192 <= ramMiB then 40
    else 20
  }

  function DefaultPods(f: Flavor): int {
    var count := PodsByMemory(f.ramMiB);
    if f.specs.Some? && f.specs.value.nicCap.Some? && 0 < f.specs.value.nicCap.value < count
    then f.specs.value.nicCap.value else count
  }

  function ArchOf(f: Flavor): string {
    if f.specs.Some? && f.specs.value.arch.Some? then f.specs.value.arch.value else "amd64"
  }

  function Resolve(f: Flavor, zones: set<string>, nc: NodeClass): Resolved {
    var kc := KubeletOf(nc);
    var perPod := if RuntimeOf(nc) == "docker" then 20 else 5;
    Resolved(f.name, ArchOf(f), f.vcpus, zones, f.ramMiB,
             if kc.maxPods.Some? then kc.maxPods.value else DefaultPods(f),
             Ext4.EphemeralStorage(nc.k8s),
             500 + perPod * PodsByMemory(f.ramMiB),
             400 + GoDiv(f.ramMiB * 25, 1024),
             kc.kubeReserved, kc.systemReserved)
  }

  // ---------- the provider's state ----------

  /** `seenTypes` and `seenOfferings` are what the change monitor last hashed. */
  datatype State = State(
    info: map<string, Flavor>,
    offerings: map<string, set<string>>,
    allZones: set<string>,
    cache: map<CacheKey, map<string, Resolved>>,
    discovered: map<string, int>,
    seenTypes: Option<set<Flavor>>,
    seenOfferings: Option<map<string, set<string>>>)

  function ByName(types: seq<Flavor>): map<string, Flavor> {
    if types == [] then map[] else
    var f := types[|types| - 1];
    ByName(types[..|types| - 1])[f.name := f]
  }

  function ZonesByName(universe: set<string>, types: seq<Flavor>): map<string, set<string>> {
    if types == [] then map[] else
    var f := types[|types| - 1];
    ZonesByName(universe, types[..|types| - 1])[f.name := OfferingZones(universe, f.specs)]
  }

  function UpdateTypes(s: State, types: seq<Flavor>): State {
    var content := set f | f in types;
    s.(cache := if s.seenTypes == Some(content) then s.cache else map[],
       seenTypes := Some(content),
       info := ByName(types))
  }

  function AllZones(offerings: map<string, set<string>>): set<string> {
    set n, z | n in offerings && z in offerings[n] :: z
  }

  function UpdateOfferings(s: State, types: seq<Flavor>, zones: set<string>): State {
    var offerings := ZonesByName(Universe(zones, types), types);
    s.(cache := if s.seenOfferings == Some(offerings) then s.cache else map[],
       seenOfferings := Some(offerings),
       offerings := offerings,
       allZones := AllZones(offerings))
  }

  function ZonesOf(s: State, name: string): set<string> {
    if name in s.offerings then s.offerings[name] else {}
  }

  /** One type from current flavors and offerings. */
  function Compute(s: State, nc: NodeClass, name: string): Resolved
    requires name in s.info
  {
    var r := Resolve(s.info[name], ZonesOf(s, s.info[name].name), nc);
    if r.name in s.discovered then r.(memoryMiB := s.discovered[r.name]) else r
  }

  function ComputeAll(s: State, nc: NodeClass): map<string, Resolved> {
    map name | name in s.info :: Compute(s, nc, name)
  }

  predicate Ready(s: State) {
    s.info != map[] && s.offerings != map[]
  }

  function ListState(s: State, nc: NodeClass): State {
    if Ready(s) && CacheKeyOf(nc) !in s.cache then s.(cache := s.cache[CacheKeyOf(nc) := ComputeAll(s, nc)]) else s
  }

  /** The types a `List` call hands to the offering step. */
  function Listed(s: State, nc: NodeClass): map<string, Resolved> {
    if CacheKeyOf(nc) in s.cache then s.cache[CacheKeyOf(nc)] else ComputeAll(s, nc)
  }

  /** The type a `Get` call finds: from the cache when it is there, else resolved afresh. */
  function Got(s: State, nc: NodeClass, name: string): Option<Resolved> {
    if CacheKeyOf(nc) in s.cache && name in s.cache[CacheKeyOf(nc)] then Some(s.cache[CacheKeyOf(nc)][name])
    else if name in s.info then Some(Compute(s, nc, name))
    else None
  }

  function Discover(s: State, name: string, memoryMiB: int): State {
    if name !in s.discovered || memoryMiB <= s.discovered[name]
    then s.(discovered := s.discovered[name := memoryMiB]) else s
  }

  /** The zones the offering step uses for a resolved type. */
  function ZonesFor(s: State, r: Resolved): set<string> {
    if r.zones != {} then r.zones
    else if r.name in s.offerings then s.offerings[r.name]
    else s.allZones
  }

  // ---------- what a resolved type says ----------

  /** Pods that a memory size allows. */
  predicate TierIs(ramMiB: int, tier: int) {
    || (ramMiB < 8192 && tier == 20)
    || (8192 <= ramMiB < 16384 && tier == 40)
    || (16384 <= ramMiB < 32768 && tier == 60)
    || (32768 <= ramMiB < 65536 && tier == 80)
    || (65536 <= ramMiB && tier == 110)
  }

  /** The node class's own maximum, else the memory tier, limited by a positive interface quota. */
  predicate PodsAre(f: Flavor, nc: NodeClass, tier: int, pods: int) {
    if nc.kubelet.Some? && nc.kubelet.value.maxPods.Some? then pods == nc.kubelet.value.maxPods.value
    else if f.specs.Some? && f.specs.value.nicCap.Some? && 0 < f.specs.value.nicCap.value
    then pods in {tier, f.specs.value.nicCap.value} && pods <= tier && pods <= f.specs.value.nicCap.value
    else pods == tier
  }

  /** Memory set aside: for kubelet 500 MiB and 5 MiB (20 under docker) per pod of the tier, for the system
      400 MiB and 25 MiB per GiB, rounded toward zero. */
  predicate MemoryOverheadIs(ramMiB: int, nc: NodeClass, tier: int, kube: int, system: int) {
    && kube == 500 + (if nc.runtime == Some("docker") then 20 else 5) * tier
    && var share := system - 400;
       if 0 <= ramMiB then 1024 * share <= 25 * ramMiB < 1024 * share + 1024
       else 1024 * share - 1024 < 25 * ramMiB <= 1024 * share
  }

  /** The resolved type is the flavor's under the node class, with these zones and this memory. */
  ghost predicate Describes(r: Resolved, f: Flavor, nc: NodeClass, zones: set<string>, memoryMiB: int) {
    && r.name == f.name && r.vcpus == f.vcpus && r.zones == zones && r.memoryMiB == memoryMiB
    && r.arch == (if f.specs.Some? && f.specs.value.arch.Some? then f.specs.value.arch.value else "amd64")
    && (exists tier :: TierIs(f.ramMiB, tier) && PodsAre(f, nc, tier, r.pods)
                    && MemoryOverheadIs(f.ramMiB, nc, tier, r.kubeReservedMiB, r.systemReservedMiB))
    && (nc.k8s.Device? && 0 < nc.k8s.volumeSize <= 858993459 ==> Ext4.StorageIs(nc.k8s.volumeSize, r.storage))
    && (nc.k8s.NoDevice? || nc.k8s.volumeSize <= 0 ==> r.storage == 10459828224)
    && r.kubeReserved == (if nc.kubelet.Some? then nc.kubelet.value.kubeReserved else map[])
    && r.systemReserved == (if nc.kubelet.Some? then nc.kubelet.value.systemReserved else map[])
  }

  /** The type under a name as the tables have it now: a learned memory size replaces the flavor's. */
  ghost predicate Described(s: State, nc: NodeClass, name: string, r: Resolved) {
    && name in s.info
    && var f := s.info[name];
       Describes(r, f, nc, if f.name in s.offerings then s.offerings[f.name] else {},
                 if f.name in s.discovered then s.discovered[f.name] else f.ramMiB)
  }

  lemma StorageOfClass(nc: NodeClass)
    ensures nc.k8s.Device? && 0 < nc.k8s.volumeSize <= 858993459 ==>
              Ext4.StorageIs(nc.k8s.volumeSize, Ext4.EphemeralStorage(nc.k8s))
    ensures nc.k8s.NoDevice? || nc.k8s.volumeSize <= 0 ==> Ext4.EphemeralStorage(nc.k8s) == 10459828224
  {
    if nc.k8s.NoDevice? || nc.k8s.volumeSize <= 0 {
      Ext4.DefaultStorage(nc.k8s);
    } else if nc.k8s.volumeSize <= 858993459 {
      Ext4.StorageMeaning(nc.k8s.volumeSize, Ext4.EphemeralStorage(nc.k8s));
    }
  }

  lemma ResolveDescribes(f: Flavor, zones: set<string>, nc: NodeClass)
    ensures Describes(Resolve(f, zones, nc), f, nc, zones, f.ramMiB)
  {
    StorageOfClass(nc);
    var r, tier := Resolve(f, zones, nc), PodsByMemory(f.ramMiB);
    MachineArithmetic(0, f.ramMiB * 25, 1024);
    assert TierIs(f.ramMiB, tier) && PodsAre(f, nc, tier, r.pods);
  }

  lemma ComputeIsDescribed(s: State, nc: NodeClass, name: string)
    requires name in s.info
    ensures Described(s, nc, name, Compute(s, nc, name))
  {
    var f := s.info[name];
    ResolveDescribes(f, ZonesOf(s, f.name), nc);
    var r, c := Resolve(f, ZonesOf(s, f.name), nc), Compute(s, nc, name);
    var tier :| TierIs(f.ramMiB, tier) && PodsAre(f, nc, tier, r.pods)
             && MemoryOverheadIs(f.ramMiB, nc, tier, r.kubeReservedMiB, r.systemReservedMiB);
    assert PodsAre(f, nc, tier, c.pods) && MemoryOverheadIs(f.ramMiB, nc, tier, c.kubeReservedMiB, c.systemReservedMiB);
  }

  /** Every type under its name in the tables, as they have it now. */
  ghost predicate AllDescribed(s: State, nc: NodeClass, answer: map<string, Resolved>) {
    answer.Keys == s.info.Keys && forall n :: n in answer ==> Described(s, nc, n, answer[n])
  }

  lemma UncachedAreDescribed(s: State, nc: NodeClass)
    requires CacheKeyOf(nc) !in s.cache
    ensures AllDescribed(s, nc, Listed(s, nc))
  {
    forall n | n in s.info ensures Described(s, nc, n, Listed(s, nc)[n]) {
      ComputeIsDescribed(s, nc, n);
    }
  }

  // ---------- where a flavor is sold ----------

  /** The status closes a zone: one of three words, with any white space around it. */
  ghost predicate Closes(status: string) {
    exists before, word, after ::
      && word in {"abandon", "sellout", "obt_sellout"} && status == before + word + after
      && CondOperationAZ.Blank(before) && CondOperationAZ.Blank(after)
  }

  function OwnStatus(f: Flavor): map<string, string> {
    if f.specs.Some? && f.specs.value.azStatus.Some? then CondOperationAZ.Overrides(f.specs.value.azStatus.value)
    else map[]
  }

  /** The flavor is sold in the zone: its own status for the zone decides; without one it is sold where the
      API lists the zone or any flavor names it, unless its default status closes. */
  ghost predicate SoldIn(types: seq<Flavor>, zones: set<string>, f: Flavor, zone: string) {
    if zone in OwnStatus(f) then !Closes(OwnStatus(f)[zone])
    else
      && (zone in zones || exists g :: g in types && zone in OwnStatus(g))
      && (f.specs.Some? && f.specs.value.status.Some? ==> !Closes(f.specs.value.status.value))
  }

  lemma StatusMeaning(status: string)
    ensures StatusAvailable(status) <==> !Closes(status)
  {
    if Closes(status) {
      var before, word, after :|
        && word in {"abandon", "sellout", "obt_sellout"} && status == before + word + after
        && CondOperationAZ.Blank(before) && CondOperationAZ.Blank(after);
      ClosingWord(before, word, after);
    } else {
      var before, after := CondOperationAZ.TrimSplits(status);
    }
  }

  lemma ClosingWord(before: string, word: string, after: string)
    requires word in {"abandon", "sellout", "obt_sellout"}
    requires CondOperationAZ.Blank(before) && CondOperationAZ.Blank(after)
    ensures CondOperationAZ.TrimSpace(before + word + after) == word
  {
    assert before + word + after == before + (word + after);
    CondOperationAZ.TrimPadded(before, word, after);
  }

  lemma OfferedMeansSold(types: seq<Flavor>, zones: set<string>, f: Flavor, zone: string)
    ensures Offered(Universe(zones, types), f.specs, zone) <==> SoldIn(types, zones, f, zone)
  {
    if zone in OwnStatus(f) {
      StatusMeaning(OwnStatus(f)[zone]);
    } else {
      if f.specs.Some? && f.specs.value.status.Some? {
        StatusMeaning(f.specs.value.status.value);
      }
      assert zone in Universe(zones, types) <==> zone in zones || exists g :: g in types && zone in OwnStatus(g) by {
        if g :| g in types && zone in OwnStatus(g) {
          var i :| 0 <= i < |types| && types[i] == g;
          assert zone in OverridesOf(types[i].specs);
        }
        if zone in Universe(zones, types) && zone !in zones {
          var i :| 0 <= i < |types| && zone in OverridesOf(types[i].specs);
          assert types[i] in types && zone in OwnStatus(types[i]);
        }
      }
    }
  }

  lemma EmptyHasNoOverrides()
    ensures CondOperationAZ.Overrides("") == map[]
  {
  }

  predicate DistinctNames(types: seq<Flavor>) {
    forall i, j :: 0 <= i < j < |types| ==> types[i].name != types[j].name
  }

  lemma {:induction false} ByNameMeaning(types: seq<Flavor>)
    ensures forall n :: n in ByName(types) ==> ByName(types)[n] in types && ByName(types)[n].name == n
    ensures forall f :: f in types ==> f.name in ByName(types)
    ensures DistinctNames(types) ==> forall f :: f in types ==> ByName(types)[f.name] == f
  {
    if types != [] {
      var front := types[..|types| - 1];
      ByNameMeaning(front);
      assert types == front + [types[|types| - 1]];
    }
  }

  lemma {:induction false} ZonesByNameMeaning(universe: set<string>, types: seq<Flavor>)
    ensures forall n :: n in ZonesByName(universe, types) <==> n in ByName(types)
    ensures forall n :: n in ByName(types) ==>
              ZonesByName(universe, types)[n] == OfferingZones(universe, ByName(types)[n].specs)
  {
    if types != [] {
      ZonesByNameMeaning(universe, types[..|types| - 1]);
    }
  }
}
