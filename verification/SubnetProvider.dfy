/** The subnet provider: an object whose methods update the ledger under its lock. */
module SubnetProvider {
  import opened Base
  import opened Ordering
  import opened Offerings
  import opened SubnetLedger

  /** A launch's hold on a subnet. */
  class Subnet {
    const id: string
    const available: int
    var reserved: int

    constructor (id: string, available: int, reserved: int)
      ensures this.id == id && this.available == available && this.reserved == reserved
    {
      this.id, this.available, this.reserved := id, available, reserved;
    }
  }

  class Provider {
    const listTTL: int
    const ipTTL: int
    var lists: map<string, Timed<map<string, VpcSubnet>>>
    var baselines: map<string, Timed<int>>
    var inflight: map<string, int>

    ghost function State(): Ledger
      reads this
    {
      Ledger(listTTL, ipTTL, lists, baselines, inflight)
    }

    constructor (listTTL: int, ipTTL: int)
      ensures Valid() && State() == Ledger(listTTL, ipTTL, map[], map[], map[])
    {
      this.listTTL, this.ipTTL := listTTL, ipTTL;
      lists, baselines, inflight := map[], map[], map[];
    }

    /** The cached lists are keyed by the subnets' own IDs. */
    ghost predicate Valid()
      reads this
    {
      forall h :: h in lists ==> forall id :: id in lists[h].value ==> lists[h].value[id].id == id
    }

    /** Lists the subnets of a node class; `reply` is what the cloud would answer if asked. */
    method List(terms: seq<SelectorTerm>, hash: string, now: int, reply: Result<seq<VpcSubnet>, string>)
      returns (r: Result<map<string, VpcSubnet>, string>)
      requires Valid()
      modifies this
      ensures Valid()
      ensures State() == AfterList(old(State()), terms, hash, now, reply)
      ensures r == Answer(old(State()), terms, hash, now, reply)
      ensures r.Ok? ==> forall id :: id in r.value ==> r.value[id].id == id
    {
      if terms == [] {
        return Ok(map[]);
      }
      var cached := Lookup(lists, hash, now);
      if cached.Some? {
        return Ok(cached.value);
      }
      if reply.Err? {
        return Err(reply.error);
      }
      var subnets := Absorb(reply.value, terms, hash, now);
      return Ok(subnets);
    }

    /** A list miss: the response is recorded and cached. */
    method Absorb(response: seq<VpcSubnet>, terms: seq<SelectorTerm>, hash: string, now: int)
      returns (subnets: map<string, VpcSubnet>)
      requires Valid()
      modifies this
      ensures Valid() && subnets == Matched(response, terms)
      ensures forall id :: id in subnets ==> subnets[id].id == id
      ensures State() == SubnetLedger.Refresh(old(State()), subnets, hash, now)
    {
      MatchedOwnIDs(response, terms);
      subnets := Record(response, terms, now);
      lists := lists[hash := Timed(subnets, now + listTTL)];
    }

    /** The refresh loop: the selected subnets' baselines restart and their tracked counts go. */
    method Record(response: seq<VpcSubnet>, terms: seq<SelectorTerm>, now: int)
      returns (subnets: map<string, VpcSubnet>)
      modifies this`baselines, this`inflight
      ensures subnets == Matched(response, terms)
      ensures Recorded(old(State()), subnets, now + ipTTL, baselines, inflight)
    {
      subnets := map[];
      for i := 0 to |response|
        invariant subnets == Matched(response[..i], terms)
        invariant Recorded(old(State()), subnets, now + ipTTL, baselines, inflight)
      {
        MatchedStep(response, i, terms);
        var s := response[i];
        if Matches(s, terms) {
          RefreshOneMore(old(State()), subnets, s, now + ipTTL, baselines, inflight);
          baselines := baselines[s.id := Timed(s.available, now + ipTTL)];
          inflight := inflight - {s.id};
          subnets := subnets[s.id := s];
        }
      }
      assert response[..|response|] == response;
    }

    method MinPods(its: seq<InstanceType>, capacityType: string, zone: string) returns (n: int)
      ensures IsMinPods(its, capacityType, zone, n)
      ensures if exists i :: 0 <= i < |its| && Sells(its[i], capacityType, zone)
              then exists i :: Leanest(its, capacityType, zone, i) && n == Wrap32(its[i].pods)
              else n == 0
    {
      var least := -1;
      for i := 0 to |its|
        invariant -1 <= least < i
        invariant least == -1 ==> forall j :: 0 <= j < i ==> !AvailableIn(its[j], capacityType, zone)
        invariant least != -1 ==> AvailableIn(its[least], capacityType, zone)
        invariant least != -1 ==> forall j :: 0 <= j < i && AvailableIn(its[j], capacityType, zone)
                                    ==> its[least].pods <= its[j].pods
      {
        if AvailableIn(its[i], capacityType, zone) && (least == -1 || its[i].pods < its[least].pods) {
          least := i;
        }
      }
      n := if least == -1 then 0 else Wrap32(its[least].pods);
      MinPodsMeaning(its, capacityType, zone, n);
    }

    method Zones(its: seq<InstanceType>, capacityType: string) returns (zones: set<string>)
      ensures zones == OfferedZones(its, capacityType)
    {
      zones := {};
      for i := 0 to |its|
        invariant forall z :: z in zones <==> exists j :: 0 <= j < i && z in ZonesIn(its[j].offerings, capacityType)
      {
        ghost var before := zones;
        var offerings := its[i].offerings;
        for k := 0 to |offerings|
          invariant zones == before + ZonesIn(offerings[..k], capacityType)
        {
          ZonesInGrows(offerings, k, capacityType);
          if offerings[k].capacityType == capacityType && offerings[k].zone != "" {
            zones := zones + {offerings[k].zone};
          }
        }
        assert offerings[..|offerings|] == offerings;
      }
    }

    method PredictedIPs(its: seq<InstanceType>, capacityType: string) returns (r: int)
      ensures IsReservation(its, capacityType, r) && LargestLeanest(its, capacityType, r)
    {
      var zones := Zones(its, capacityType);
      ghost var all := zones;
      r := 0;
      while zones != {}
        invariant 0 <= r && zones <= all
        invariant forall z, n :: z in all - zones && IsMinPods(its, capacityType, z, n) ==> n <= r
        invariant r == 0 || exists z :: z in all && IsMinPods(its, capacityType, z, r)
      {
        var zone :| zone in zones;
        var n := MinPods(its, capacityType, zone);
        forall m | IsMinPods(its, capacityType, zone, m) ensures m == n {
          MinPodsUnique(its, capacityType, zone, n, m);
        }
        if n > r {
          r := n;
        }
        zones := zones - {zone};
      }
      ReservationIsLargestLeanest(its, capacityType, r);
    }

    /** The two selection loops. */
    method Choose(ids: seq<string>, now: int) returns (selected: string, selectedCount: int)
      ensures selected == Pick(State(), ids, now)
      ensures selected != "" ==> selectedCount == Effective(State(), selected, now)
    {
      var counts: map<string, int> := map[];
      for i := 0 to |ids|
        invariant forall id :: id in counts <==> id in ids[..i] && Lookup(baselines, id, now).Some?
        invariant forall id :: id in counts ==> counts[id] == Lookup(baselines, id, now).value
      {
        var baseline := Lookup(baselines, ids[i], now);
        if baseline.Some? {
          counts := counts[ids[i] := baseline.value];
        }
      }
      selected, selectedCount := "", -1;
      for i := 0 to |ids|
        invariant selected == Pick(State(), ids[..i], now)
        invariant selected != "" ==> selectedCount == Effective(State(), selected, now)
      {
        var count := if ids[i] in counts then counts[ids[i]] else 0;
        if ids[i] in inflight {
          count := inflight[ids[i]];
        }
        assert count == Effective(State(), ids[i], now);
        assert ids[..i + 1][..i] == ids[..i];
        if selected == "" || count > selectedCount {
          selected, selectedCount := ids[i], count;
        }
      }
      assert ids[..|ids|] == ids;
    }

    /** Chooses a subnet and takes the predicted usage out of its count. */
    method SelectForLaunch(ids: seq<string>, its: seq<InstanceType>, capacityType: string, now: int)
      returns (r: Result<Subnet, string>)
      modifies this
      ensures Pick(old(State()), ids, now) == "" ==> r.Err? && State() == old(State())
      ensures Pick(old(State()), ids, now) != "" ==>
                && r.Ok? && fresh(r.value)
                && r.value.id == Pick(old(State()), ids, now)
                && r.value.available == Effective(old(State()), r.value.id, now)
                && IsReservation(its, capacityType, r.value.reserved)
                && LargestLeanest(its, capacityType, r.value.reserved)
                && State() == Reserve(old(State()), r.value.id, r.value.reserved, now)
    {
      if ids == [] {
        return Err("no subnets matched selector");
      }
      var selected, selectedCount := Choose(ids, now);
      if selected == "" {
        return Err("no subnets matched selector");
      }
      var predicted := PredictedIPs(its, capacityType);
      if predicted > 0 {
        var previous := selectedCount;
        if selected in inflight {
          previous := inflight[selected];
        }
        inflight := inflight[selected := Wrap32(previous - predicted)];
      }
      var subnet := new Subnet(selected, selectedCount, predicted);
      return Ok(subnet);
    }

    /** Gives a reservation back; the handle is emptied, so a second call does nothing. */
    method ReleaseInflightIPs(subnet: Subnet?, now: int)
      modifies this, subnet
      ensures subnet != null ==> State() == SubnetLedger.Release(old(State()), subnet.id, old(subnet.reserved), now)
      ensures subnet != null && subnet.id != "" ==> subnet.reserved == 0
      ensures subnet != null && subnet.id == "" ==> subnet.reserved == old(subnet.reserved)
      ensures subnet == null ==> State() == old(State())
    {
      if subnet == null || subnet.id == "" {
        return;
      }
      var reserved := subnet.reserved;
      if reserved == 0 {
        return;
      }
      subnet.reserved := 0;
      if subnet.id !in inflight {
        return;
      }
      var updated := Wrap32(inflight[subnet.id] + reserved);
      var baseline := Lookup(baselines, subnet.id, now);
      if baseline.Some? && updated >= baseline.value {
        inflight := inflight - {subnet.id};
        return;
      }
      inflight := inflight[subnet.id := updated];
    }
  }

  lemma ZonesInGrows(offerings: seq<Offering>, k: nat, capacityType: string)
    requires k < |offerings|
    ensures ZonesIn(offerings[..k + 1], capacityType) == ZonesIn(offerings[..k], capacityType) +
              if offerings[k].capacityType == capacityType && offerings[k].zone != "" then {offerings[k].zone} else {}
  {
  }

  // ---------- the order of Status.Subnets ----------

  /** Most free addresses first; equal counts by ID. */
  predicate MoreFree(a: VpcSubnet, b: VpcSubnet) {
    if a.available != b.available then a.available > b.available else StringLess(a.id, b.id)
  }

  lemma MoreFreeIsWeakOrder()
    ensures StrictWeakOrder(MoreFree)
  {
    StringLessIsWeakOrder();
  }

  /** `ids` lists the keys of `m` once each, most free first. */
  ghost predicate IsStatusOrder(m: map<string, VpcSubnet>, ids: seq<string>) {
    && (forall id :: id in ids <==> id in m)
    && (forall i, j :: 0 <= i < j < |ids| ==> ids[i] != ids[j])
    && (forall i, j :: 0 <= i < j < |ids| ==> !MoreFree(m[ids[j]], m[ids[i]]))
  }

  class NodeClassStatus {
    var subnets: seq<string>
    var subnetsReady: bool

    constructor ()
      ensures subnets == [] && !subnetsReady
    {
      subnets, subnetsReady := [], false;
    }
  }

  method Reconcile(p: Provider, status: NodeClassStatus, terms: seq<SelectorTerm>, hash: string, now: int,
                   reply: Result<seq<VpcSubnet>, string>)
    returns (failed: bool)
    requires p.Valid()
    modifies p, status
    ensures p.Valid()
    ensures p.State() == AfterList(old(p.State()), terms, hash, now, reply)
    ensures failed <==> Answer(old(p.State()), terms, hash, now, reply).Err?
    ensures failed ==> status.subnets == old(status.subnets) && status.subnetsReady == old(status.subnetsReady)
    ensures !failed ==> IsStatusOrder(Answer(old(p.State()), terms, hash, now, reply).value, status.subnets)
    ensures !failed ==> (status.subnetsReady <==> status.subnets != [])
  {
    var listed := p.List(terms, hash, now, reply);
    if listed.Err? {
      return true;
    }
    var m := listed.value;
    if m == map[] {
      status.subnets, status.subnetsReady := [], false;
      return false;
    }
    var order := StatusOrder(m);
    status.subnets, status.subnetsReady := order, true;
    assert m.Keys != {};
    var id :| id in m;
    assert id in order;
    return false;
  }

  /** Lists a map in some order, sorts it, and keeps the IDs. */
  method StatusOrder(m: map<string, VpcSubnet>) returns (ids: seq<string>)
    requires forall id :: id in m ==> m[id].id == id
    ensures IsStatusOrder(m, ids)
  {
    var listed: seq<VpcSubnet> := [];
    var rest := m.Keys;
    while rest != {}
      invariant rest <= m.Keys
      invariant forall i :: 0 <= i < |listed| ==> listed[i].id in m.Keys - rest && m[listed[i].id] == listed[i]
      invariant forall id :: id in m.Keys - rest ==> m[id] in listed
      invariant forall i, j :: 0 <= i < j < |listed| ==> listed[i] != listed[j]
    {
      var id :| id in rest;
      rest := rest - {id};
      listed := listed + [m[id]];
    }
    MoreFreeIsWeakOrder();
    var sorted := SortSlice(MoreFree, listed);
    SameElements(listed, sorted);
    forall i | 0 <= i < |sorted| ensures sorted[i].id in m && m[sorted[i].id] == sorted[i] {
      assert sorted[i] in listed;
    }
    ids := seq(|sorted|, i requires 0 <= i < |sorted| => sorted[i].id);
    forall id | id in m ensures id in ids {
      assert m[id] in listed;
      var i :| 0 <= i < |sorted| && sorted[i] == m[id];
      assert ids[i] == id;
    }
  }

  /** Ties are broken by ID, so the order does not depend on how the map was listed. */
  lemma StatusOrderUnique(m: map<string, VpcSubnet>, ids: seq<string>, ids': seq<string>)
    requires forall id :: id in m ==> m[id].id == id
    requires IsStatusOrder(m, ids) && IsStatusOrder(m, ids')
    ensures ids == ids'
  {
    var s, t := Entries(m, ids), Entries(m, ids');
    SortedEntries(m, ids);
    SortedEntries(m, ids');
    MoreFreeIsWeakOrder();
    forall x, y | x in s && y in s && x != y ensures MoreFree(x, y) || MoreFree(y, x) {
      StringLessTotal(x.id, y.id);
    }
    SortedIsUnique(MoreFree, s, t);
    forall i | 0 <= i < |ids| ensures ids[i] == ids'[i] {
      assert s[i] == t[i];
    }
  }

  /** That order: more free addresses first, and the smaller ID first among equals. */
  lemma StatusOrderMeaning(m: map<string, VpcSubnet>, ids: seq<string>)
    requires forall id :: id in m ==> m[id].id == id
    requires IsStatusOrder(m, ids)
    ensures forall id :: id in m <==> id in ids
    ensures forall i, j :: 0 <= i < j < |ids| ==>
              && ids[i] in m && ids[j] in m
              && (m[ids[i]].available > m[ids[j]].available
                  || (m[ids[i]].available == m[ids[j]].available && StringLess(ids[i], ids[j])))
  {
    forall i, j | 0 <= i < j < |ids|
      ensures ids[i] in m && ids[j] in m
      ensures m[ids[i]].available > m[ids[j]].available
              || (m[ids[i]].available == m[ids[j]].available && StringLess(ids[i], ids[j]))
    {
      assert ids[i] in ids && ids[j] in ids;
      StringLessTotal(ids[i], ids[j]);
    }
  }

  function Entries(m: map<string, VpcSubnet>, ids: seq<string>): seq<VpcSubnet>
    requires forall id :: id in ids ==> id in m
  {
    seq(|ids|, i requires 0 <= i < |ids| => m[ids[i]])
  }

  lemma SortedEntries(m: map<string, VpcSubnet>, ids: seq<string>)
    requires forall id :: id in m ==> m[id].id == id
    requires IsStatusOrder(m, ids)
    ensures SortedBy(MoreFree, Entries(m, ids))
    ensures forall i, j :: 0 <= i < j < |ids| ==> Entries(m, ids)[i] != Entries(m, ids)[j]
    ensures forall x: VpcSubnet :: x in Entries(m, ids) <==> x.id in m && m[x.id] == x
  {
    var s := Entries(m, ids);
    forall i | 0 <= i < |ids| ensures s[i].id == ids[i] {
      assert ids[i] in m;
    }
    forall x: VpcSubnet | x.id in m && m[x.id] == x ensures x in s {
      var i :| 0 <= i < |ids| && ids[i] == x.id;
      assert s[i] == x;
    }
  }
}
