/** The ledger of free IP addresses per subnet: baselines read from the cloud, and the tracked
    counts that reservations of launches in flight subtract from them. */
module SubnetLedger {
  import opened Base
  import opened Ordering
  import opened Offerings

  datatype VpcSubnet = VpcSubnet(id: string, name: string, available: int)

  datatype SelectorTerm = SelectorTerm(id: string, name: string)

  /** Everything the provider remembers between calls. */
  datatype Ledger = Ledger(
    listTTL: int,
    ipTTL: int,
    lists: map<string, Timed<map<string, VpcSubnet>>>,
    baselines: map<string, Timed<int>>,
    inflight: map<string, int>)

  // ---------- listing ----------

  predicate MatchesTerm(s: VpcSubnet, t: SelectorTerm) {
    && !(t.id == "" && t.name == "")
    && (t.id == "" || s.id == t.id)
    && (t.name == "" || s.name == t.name)
  }

  predicate Matches(s: VpcSubnet, terms: seq<SelectorTerm>) {
    exists i :: 0 <= i < |terms| && MatchesTerm(s, terms[i])
  }

  /** The selected subnets of a response by ID; a repeated ID keeps its last entry. */
  function Matched(response: seq<VpcSubnet>, terms: seq<SelectorTerm>): map<string, VpcSubnet> {
    if response == [] then map[] else
    var s := response[|response| - 1];
    var before := Matched(response[..|response| - 1], terms);
    if Matches(s, terms) then before[s.id := s] else before
  }

  function FreshBaselines(matched: map<string, VpcSubnet>, expires: int): map<string, Timed<int>> {
    map id | id in matched :: Timed(matched[id].available, expires)
  }

  lemma {:induction false} MatchedOwnIDs(response: seq<VpcSubnet>, terms: seq<SelectorTerm>)
    ensures forall id :: id in Matched(response, terms) ==>
              Matched(response, terms)[id].id == id && Matched(response, terms)[id] in response
  {
    if response != [] {
      MatchedOwnIDs(response[..|response| - 1], terms);
    }
  }

  lemma {:induction false} MatchedKeys(response: seq<VpcSubnet>, terms: seq<SelectorTerm>)
    ensures forall id :: id in Matched(response, terms) ==> Matched(response, terms)[id].id == id
    ensures forall id :: id in Matched(response, terms) <==>
              exists i :: 0 <= i < |response| && response[i].id == id && Matches(response[i], terms)
  {
    MatchedOwnIDs(response, terms);
    if response != [] {
      var front := response[..|response| - 1];
      MatchedKeys(front, terms);
      forall id ensures id in Matched(response, terms) <==>
        exists i :: 0 <= i < |response| && response[i].id == id && Matches(response[i], terms)
      {
        if id in Matched(front, terms) {
          var i :| 0 <= i < |front| && front[i].id == id && Matches(front[i], terms);
          assert response[i] == front[i];
        }
        if i :| 0 <= i < |response| && response[i].id == id && Matches(response[i], terms) {
          if i < |front| {
            assert front[i] == response[i];
          }
        }
      }
    }
  }

  /** A refresh restarts the baselines of the subnets it saw and forgets what it tracked for them. */
  function Refresh(l: Ledger, matched: map<string, VpcSubnet>, hash: string, now: int): Ledger {
    l.(lists := l.lists[hash := Timed(matched, now + l.listTTL)],
       baselines := l.baselines + FreshBaselines(matched, now + l.ipTTL),
       inflight := l.inflight - matched.Keys)
  }

  /** Baselines and tracked counts once the subnets of `m` were recorded on top of `l`. */
  ghost predicate Recorded(l: Ledger, m: map<string, VpcSubnet>, expires: int,
                           baselines: map<string, Timed<int>>, inflight: map<string, int>) {
    baselines == l.baselines + FreshBaselines(m, expires) && inflight == l.inflight - m.Keys
  }

  /** Adding one entry to the matched subnets adds its baseline and drops its tracked count. */
  lemma RefreshOneMore(l: Ledger, m: map<string, VpcSubnet>, s: VpcSubnet, expires: int,
                       baselines: map<string, Timed<int>>, inflight: map<string, int>)
    requires Recorded(l, m, expires, baselines, inflight)
    ensures Recorded(l, m[s.id := s], expires,
                     baselines[s.id := Timed(s.available, expires)], inflight - {s.id})
  {
  }

  lemma MatchedStep(response: seq<VpcSubnet>, i: nat, terms: seq<SelectorTerm>)
    requires i < |response|
    ensures Matched(response[..i + 1], terms) ==
              if Matches(response[i], terms) then Matched(response[..i], terms)[response[i].id := response[i]]
              else Matched(response[..i], terms)
  {
    assert response[..i + 1][..i] == response[..i];
  }

  /** Whether a `List` call reaches the cloud and gets an answer. */
  predicate Refreshes(l: Ledger, terms: seq<SelectorTerm>, hash: string, now: int,
                      reply: Result<seq<VpcSubnet>, string>) {
    terms != [] && Lookup(l.lists, hash, now).None? && reply.Ok?
  }

  /** What a `List` call answers; without selector terms it selects nothing. */
  function Answer(l: Ledger, terms: seq<SelectorTerm>, hash: string, now: int, reply: Result<seq<VpcSubnet>, string>)
    : Result<map<string, VpcSubnet>, string>
  {
    if terms == [] then Ok(map[]) else
    match Lookup(l.lists, hash, now)
    case Some(cached) => Ok(cached)
    case None => if reply.Ok? then Ok(Matched(reply.value, terms)) else Err(reply.error)
  }

  /** The ledger after a `List` call. */
  function AfterList(l: Ledger, terms: seq<SelectorTerm>, hash: string, now: int,
                     reply: Result<seq<VpcSubnet>, string>): Ledger {
    if Refreshes(l, terms, hash, now, reply) then Refresh(l, Matched(reply.value, terms), hash, now) else l
  }

  // ---------- counting ----------

  /** The count the selection loop compares: tracked, else the cached baseline, else zero. */
  function Effective(l: Ledger, id: string, now: int): int {
    if id in l.inflight then l.inflight[id]
    else match Lookup(l.baselines, id, now)
      case Some(b) => b
      case None => 0
  }

  /** The selection loop: the subnet held after looking at all of `ids`, "" when none. */
  function Pick(l: Ledger, ids: seq<string>, now: int): string {
    if ids == [] then "" else
    var last := ids[|ids| - 1];
    var held := Pick(l, ids[..|ids| - 1], now);
    if held == "" || Effective(l, last, now) > Effective(l, held, now) then last else held
  }

  function Reserve(l: Ledger, id: string, reserve: int, now: int): Ledger {
    if 0 < reserve then l.(inflight := l.inflight[id := Wrap32(Effective(l, id, now) - reserve)]) else l
  }

  function Release(l: Ledger, id: string, reserved: int, now: int): Ledger {
    if id == "" || reserved == 0 || id !in l.inflight then l else
    var updated := Wrap32(l.inflight[id] + reserved);
    var baseline := Lookup(l.baselines, id, now);
    if baseline.Some? && updated >= baseline.value then l.(inflight := l.inflight - {id})
    else l.(inflight := l.inflight[id := updated])
  }

  // ---------- predicted usage ----------

  predicate AvailableIn(it: InstanceType, capacityType: string, zone: string) {
    exists i :: 0 <= i < |it.offerings| && it.offerings[i].available
             && it.offerings[i].capacityType == capacityType && it.offerings[i].zone == zone
  }

  function ZonesIn(offerings: seq<Offering>, capacityType: string): set<string> {
    set k | 0 <= k < |offerings| && offerings[k].capacityType == capacityType && offerings[k].zone != ""
        :: offerings[k].zone
  }

  ghost function OfferedZones(its: seq<InstanceType>, capacityType: string): set<string> {
    set i, z | 0 <= i < |its| && z in ZonesIn(its[i].offerings, capacityType) :: z
  }

  /** `n` is the smallest pod capacity among the types available in the zone, 0 when there is none. */
  ghost predicate IsMinPods(its: seq<InstanceType>, capacityType: string, zone: string, n: int) {
    if exists i :: 0 <= i < |its| && AvailableIn(its[i], capacityType, zone) then
      exists i :: 0 <= i < |its| && AvailableIn(its[i], capacityType, zone) && n == Wrap32(its[i].pods)
        && forall j :: 0 <= j < |its| && AvailableIn(its[j], capacityType, zone) ==> its[i].pods <= its[j].pods
    else n == 0
  }

  /** `r` is the largest of 0 and the per-zone minimum over every offered zone. */
  ghost predicate IsReservation(its: seq<InstanceType>, capacityType: string, r: int) {
    && 0 <= r
    && (forall z, n :: z in OfferedZones(its, capacityType) && IsMinPods(its, capacityType, z, n) ==> n <= r)
    && (r == 0 || exists z :: z in OfferedZones(its, capacityType) && IsMinPods(its, capacityType, z, r))
  }

  lemma MinPodsUnique(its: seq<InstanceType>, capacityType: string, zone: string, n: int, m: int)
    requires IsMinPods(its, capacityType, zone, n) && IsMinPods(its, capacityType, zone, m)
    ensures n == m
  {
  }

  /** An offering of the type is on sale in the zone: neither suppressed nor of another capacity type. */
  ghost predicate Sells(it: InstanceType, capacityType: string, zone: string) {
    exists o :: o in it.offerings && o.available && o.capacityType == capacityType && o.zone == zone
  }

  /** Of the types on sale in the zone, this one has the fewest pods. */
  ghost predicate Leanest(its: seq<InstanceType>, capacityType: string, zone: string, i: int) {
    && 0 <= i < |its| && Sells(its[i], capacityType, zone)
    && forall j :: 0 <= j < |its| && Sells(its[j], capacityType, zone) ==> its[i].pods <= its[j].pods
  }

  /** `r` is the largest of 0 and the pods of the leanest type on sale in each zone. */
  ghost predicate LargestLeanest(its: seq<InstanceType>, capacityType: string, r: int) {
    && 0 <= r
    && (r > 0 ==> exists i, zone :: zone != "" && Leanest(its, capacityType, zone, i) && r == Wrap32(its[i].pods))
    && (forall i, zone :: zone != "" && Leanest(its, capacityType, zone, i) ==> Wrap32(its[i].pods) <= r)
  }

  lemma SellsMeansAvailable(it: InstanceType, capacityType: string, zone: string)
    ensures Sells(it, capacityType, zone) <==> AvailableIn(it, capacityType, zone)
  {
    if o :| o in it.offerings && o.available && o.capacityType == capacityType && o.zone == zone {
      var i :| 0 <= i < |it.offerings| && it.offerings[i] == o;
    }
  }

  lemma MinPodsMeaning(its: seq<InstanceType>, capacityType: string, zone: string, n: int)
    ensures IsMinPods(its, capacityType, zone, n) <==>
              if exists i :: 0 <= i < |its| && Sells(its[i], capacityType, zone)
              then exists i :: Leanest(its, capacityType, zone, i) && n == Wrap32(its[i].pods)
              else n == 0
  {
    forall i | 0 <= i < |its| ensures Sells(its[i], capacityType, zone) <==> AvailableIn(its[i], capacityType, zone) {
      SellsMeansAvailable(its[i], capacityType, zone);
    }
    if IsMinPods(its, capacityType, zone, n) && exists i :: 0 <= i < |its| && Sells(its[i], capacityType, zone) {
      var i :| 0 <= i < |its| && AvailableIn(its[i], capacityType, zone) && n == Wrap32(its[i].pods)
            && forall j :: 0 <= j < |its| && AvailableIn(its[j], capacityType, zone) ==> its[i].pods <= its[j].pods;
      assert Leanest(its, capacityType, zone, i);
    }
  }

  lemma SoldZonesAreOffered(its: seq<InstanceType>, capacityType: string, zone: string, i: int)
    requires 0 <= i < |its| && Sells(its[i], capacityType, zone) && zone != ""
    ensures zone in OfferedZones(its, capacityType)
  {
    var o :| o in its[i].offerings && o.available && o.capacityType == capacityType && o.zone == zone;
    var k :| 0 <= k < |its[i].offerings| && its[i].offerings[k] == o;
    assert zone in ZonesIn(its[i].offerings, capacityType);
  }

  lemma LeanestIsMinPods(its: seq<InstanceType>, capacityType: string, zone: string, i: int)
    requires Leanest(its, capacityType, zone, i)
    ensures IsMinPods(its, capacityType, zone, Wrap32(its[i].pods))
  {
    MinPodsMeaning(its, capacityType, zone, Wrap32(its[i].pods));
  }

  lemma ReservationIsLargestLeanest(its: seq<InstanceType>, capacityType: string, r: int)
    requires IsReservation(its, capacityType, r)
    ensures LargestLeanest(its, capacityType, r)
  {
    if r > 0 {
      var z :| z in OfferedZones(its, capacityType) && IsMinPods(its, capacityType, z, r);
      MinPodsMeaning(its, capacityType, z, r);
      var i :| Leanest(its, capacityType, z, i) && r == Wrap32(its[i].pods);
      assert z != "";
    }
    forall i, zone | zone != "" && Leanest(its, capacityType, zone, i) ensures Wrap32(its[i].pods) <= r {
      SoldZonesAreOffered(its, capacityType, zone, i);
      LeanestIsMinPods(its, capacityType, zone, i);
    }
  }

  /** The same types with other suppressed offerings. */
  ghost predicate SellAlike(its: seq<InstanceType>, its': seq<InstanceType>) {
    && |its| == |its'|
    && forall i :: 0 <= i < |its| ==>
         && its[i].pods == its'[i].pods
         && forall o :: o in its[i].offerings && o.available <==> o in its'[i].offerings && o.available
  }

  /** Suppressed offerings never change a reservation. */
  lemma SuppressedDoNotCount(its: seq<InstanceType>, its': seq<InstanceType>, capacityType: string, r: int, r': int)
    requires SellAlike(its, its')
    requires IsReservation(its, capacityType, r) && IsReservation(its', capacityType, r')
    ensures r == r'
  {
    ReservationIsLargestLeanest(its, capacityType, r);
    ReservationIsLargestLeanest(its', capacityType, r');
    forall i, zone | 0 <= i < |its|
      ensures Sells(its[i], capacityType, zone) <==> Sells(its'[i], capacityType, zone)
    {
    }
    forall i, zone ensures Leanest(its, capacityType, zone, i) <==> Leanest(its', capacityType, zone, i) {
    }
  }

  lemma ReservationUnique(its: seq<InstanceType>, capacityType: string, r: int, q: int)
    requires IsReservation(its, capacityType, r) && IsReservation(its, capacityType, q)
    ensures r == q
  {
  }
}
