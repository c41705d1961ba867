/** What the listing of instance types guarantees to the launch that consumes it. */
module Pipeline {
  import opened Ordering
  import opened Offerings
  import opened Candidates
  import opened InstanceTypes
  import InstanceTypeProvider

  /** `its` lists the entries of a `List` answer, in any order. */
  ghost predicate IsListing(listed: map<string, (Resolved, seq<Offering>)>, its: seq<InstanceType>) {
    && (forall it :: it in its <==> exists n :: n in listed && it == InstanceType(n, listed[n].1, listed[n].0.pods))
    && (forall i, j :: 0 <= i < j < |its| ==> its[i] != its[j])
  }

  /** The launch sees the same candidates in the same order however the listing was ordered. */
  lemma LaunchIgnoresListingOrder(p: InstanceTypeProvider.Provider, listed: map<string, (Resolved, seq<Offering>)>,
                                  now: int, prices: string -> real, its: seq<InstanceType>, its': seq<InstanceType>,
                                  compatible: Offering -> bool, subnetID: string, cs: seq<Candidate>,
                                  cs': seq<Candidate>)
    requires forall n :: n in listed ==>
               && p.IsOfferingList(listed[n].0, listed[n].1, now, prices(listed[n].0.name))
               && forall z :: z in ZonesFor(p.Value(), listed[n].0) ==> '/' !in z
    requires IsListing(listed, its) && IsListing(listed, its')
    requires IsLaunchOrder(its, compatible, subnetID, cs) && IsLaunchOrder(its', compatible, subnetID, cs')
    ensures cs == cs'
  {
    ListingIsClean(p, listed, now, prices, its, compatible);
    ListingIsClean(p, listed, now, prices, its', compatible);
    CleanZonesShareNoKey(its, compatible, subnetID);
    OrderIsFixed(its, its', compatible, subnetID, cs, cs');
  }

  lemma ListingIsClean(p: InstanceTypeProvider.Provider, listed: map<string, (Resolved, seq<Offering>)>,
                       now: int, prices: string -> real, its: seq<InstanceType>, compatible: Offering -> bool)
    requires forall n :: n in listed ==>
               && p.IsOfferingList(listed[n].0, listed[n].1, now, prices(listed[n].0.name))
               && forall z :: z in ZonesFor(p.Value(), listed[n].0) ==> '/' !in z
    requires IsListing(listed, its)
    ensures OnDemandOnly(its, compatible) && Candidates.DistinctNames(its) && CleanZones(its, compatible)
  {
    forall i, k | Usable(its, compatible, i, k)
      ensures CapacityTypeOf(its[i].offerings[k]) == ON_DEMAND && '/' !in its[i].offerings[k].zone
    {
      assert its[i] in its;
      var n :| n in listed && its[i] == InstanceType(n, listed[n].1, listed[n].0.pods);
      assert listed[n].1[k].zone in ZonesFor(p.Value(), listed[n].0);
    }
    forall i, j | 0 <= i < j < |its| ensures its[i].name != its[j].name {
      assert its[i] in its && its[j] in its;
    }
  }
}
