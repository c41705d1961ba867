/** The (instance type, zone) pairs a launch may ask for, in the order it asks. */
module Candidates {
  import opened Ordering
  import opened Offerings
  import OfferingCache

  datatype Candidate = Candidate(name: string, capacityType: string, price: real, zone: string, subnetID: string)

  function CapacityTypeOf(o: Offering): string {
    if o.capacityType == "" then ON_DEMAND else o.capacityType
  }

  function ToCandidate(it: InstanceType, o: Offering, subnetID: string): Candidate {
    Candidate(it.name, CapacityTypeOf(o), o.price, o.zone, subnetID)
  }

  function CandidateKey(c: Candidate): string {
    c.capacityType + "/" + c.zone + "/" + c.name
  }

  /** Cheapest first, then by zone, then by name. */
  predicate Before(a: Candidate, b: Candidate) {
    if a.price != b.price then a.price < b.price
    else if a.zone != b.zone then StringLess(a.zone, b.zone)
    else StringLess(a.name, b.name)
  }

  lemma BeforeIsWeakOrder()
    ensures StrictWeakOrder(Before)
  {
    StringLessIsWeakOrder();
    forall x: Candidate, y: Candidate | x.zone != y.zone
      ensures StringLess(x.zone, y.zone) || StringLess(y.zone, x.zone)
    {
      StringLessTotal(x.zone, y.zone);
    }
  }

  /** Offering `k` of type `i` can be launched in the selected subnet. */
  predicate Usable(its: seq<InstanceType>, compatible: Offering -> bool, i: int, k: int) {
    0 <= i < |its| && 0 <= k < |its[i].offerings| && compatible(its[i].offerings[k]) && its[i].offerings[k].zone != ""
  }

  function At(its: seq<InstanceType>, subnetID: string, i: int, k: int): Candidate
    requires 0 <= i < |its| && 0 <= k < |its[i].offerings|
  {
    ToCandidate(its[i], its[i].offerings[k], subnetID)
  }

  /** No usable offering before (i, k), in listing order, has the same key. */
  ghost predicate FirstOfKey(its: seq<InstanceType>, compatible: Offering -> bool, subnetID: string, i: int, k: int)
    requires Usable(its, compatible, i, k)
  {
    forall i', k' :: Usable(its, compatible, i', k') && (i' < i || (i' == i && k' < k)) ==>
      CandidateKey(At(its, subnetID, i', k')) != CandidateKey(At(its, subnetID, i, k))
  }

  ghost predicate IsCandidate(its: seq<InstanceType>, compatible: Offering -> bool, subnetID: string, c: Candidate) {
    exists i, k :: Usable(its, compatible, i, k) && FirstOfKey(its, compatible, subnetID, i, k)
                && c == At(its, subnetID, i, k)
  }

  /** `cs` holds every candidate once, in launch order. */
  ghost predicate IsLaunchOrder(its: seq<InstanceType>, compatible: Offering -> bool, subnetID: string,
                                cs: seq<Candidate>) {
    && SortedBy(Before, cs)
    && (forall i, j :: 0 <= i < j < |cs| ==> CandidateKey(cs[i]) != CandidateKey(cs[j]))
    && (forall c :: c in cs <==> IsCandidate(its, compatible, subnetID, c))
  }

  /** Scanned: types before `i`, and the first `k` offerings of type `i`. */
  ghost predicate Scanned(i: int, k: int, i': int, k': int) {
    i' < i || (i' == i && k' < k)
  }

  ghost predicate KeyScanned(its: seq<InstanceType>, compatible: Offering -> bool, subnetID: string,
                             i: int, k: int, key: string) {
    exists i', k' :: Usable(its, compatible, i', k') && Scanned(i, k, i', k')
                  && CandidateKey(At(its, subnetID, i', k')) == key
  }

  ghost predicate CandidateScanned(its: seq<InstanceType>, compatible: Offering -> bool, subnetID: string,
                                   i: int, k: int, c: Candidate) {
    exists i', k' :: Usable(its, compatible, i', k') && Scanned(i, k, i', k')
                  && FirstOfKey(its, compatible, subnetID, i', k') && c == At(its, subnetID, i', k')
  }

  ghost predicate SeenScanned(its: seq<InstanceType>, compatible: Offering -> bool, subnetID: string, i: int, k: int,
                              seen: set<string>) {
    forall key :: key in seen <==> KeyScanned(its, compatible, subnetID, i, k, key)
  }

  ghost predicate ListScanned(its: seq<InstanceType>, compatible: Offering -> bool, subnetID: string, i: int, k: int,
                              cs: seq<Candidate>) {
    forall c :: c in cs <==> CandidateScanned(its, compatible, subnetID, i, k, c)
  }

  /** The candidates' keys are different and were all seen. */
  ghost predicate KeysSeen(cs: seq<Candidate>, seen: set<string>) {
    && (forall m :: 0 <= m < |cs| ==> CandidateKey(cs[m]) in seen)
    && (forall m, n :: 0 <= m < n < |cs| ==> CandidateKey(cs[m]) != CandidateKey(cs[n]))
  }

  ghost predicate Collected(its: seq<InstanceType>, compatible: Offering -> bool, subnetID: string, i: int, k: int,
                            cs: seq<Candidate>, seen: set<string>) {
    && SeenScanned(its, compatible, subnetID, i, k, seen)
    && ListScanned(its, compatible, subnetID, i, k, cs)
    && KeysSeen(cs, seen)
  }

  lemma KeyScannedStep(its: seq<InstanceType>, compatible: Offering -> bool, subnetID: string, i: int, k: int,
                       key: string)
    requires 0 <= i < |its| && 0 <= k < |its[i].offerings|
    ensures KeyScanned(its, compatible, subnetID, i, k + 1, key) <==>
              || KeyScanned(its, compatible, subnetID, i, k, key)
              || (Usable(its, compatible, i, k) && CandidateKey(At(its, subnetID, i, k)) == key)
  {
    if KeyScanned(its, compatible, subnetID, i, k, key) {
      var i', k' :| Usable(its, compatible, i', k') && Scanned(i, k, i', k')
                 && CandidateKey(At(its, subnetID, i', k')) == key;
      assert Scanned(i, k + 1, i', k');
    }
    if Usable(its, compatible, i, k) && CandidateKey(At(its, subnetID, i, k)) == key {
      assert Scanned(i, k + 1, i, k);
    }
    if KeyScanned(its, compatible, subnetID, i, k + 1, key) {
      var i', k' :| Usable(its, compatible, i', k') && Scanned(i, k + 1, i', k')
                 && CandidateKey(At(its, subnetID, i', k')) == key;
      assert Scanned(i, k, i', k') || (i' == i && k' == k);
    }
  }

  lemma CandidateScannedStep(its: seq<InstanceType>, compatible: Offering -> bool, subnetID: string, i: int, k: int,
                             c: Candidate)
    requires 0 <= i < |its| && 0 <= k < |its[i].offerings|
    ensures CandidateScanned(its, compatible, subnetID, i, k + 1, c) <==>
              || CandidateScanned(its, compatible, subnetID, i, k, c)
              || (Usable(its, compatible, i, k) && FirstOfKey(its, compatible, subnetID, i, k)
                  && c == At(its, subnetID, i, k))
  {
    if CandidateScanned(its, compatible, subnetID, i, k, c) {
      var i', k' :| Usable(its, compatible, i', k') && Scanned(i, k, i', k')
                 && FirstOfKey(its, compatible, subnetID, i', k') && c == At(its, subnetID, i', k');
      assert Scanned(i, k + 1, i', k');
    }
    if Usable(its, compatible, i, k) && FirstOfKey(its, compatible, subnetID, i, k) && c == At(its, subnetID, i, k) {
      assert Scanned(i, k + 1, i, k);
    }
    if CandidateScanned(its, compatible, subnetID, i, k + 1, c) {
      var i', k' :| Usable(its, compatible, i', k') && Scanned(i, k + 1, i', k')
                 && FirstOfKey(its, compatible, subnetID, i', k') && c == At(its, subnetID, i', k');
      assert Scanned(i, k, i', k') || (i' == i && k' == k);
    }
  }

  lemma FirstIffUnscanned(its: seq<InstanceType>, compatible: Offering -> bool, subnetID: string, i: int, k: int)
    requires Usable(its, compatible, i, k)
    ensures FirstOfKey(its, compatible, subnetID, i, k)
       <==> !KeyScanned(its, compatible, subnetID, i, k, CandidateKey(At(its, subnetID, i, k)))
  {
    var key := CandidateKey(At(its, subnetID, i, k));
    if !FirstOfKey(its, compatible, subnetID, i, k) {
      var i', k' :| Usable(its, compatible, i', k') && (i' < i || (i' == i && k' < k))
                 && CandidateKey(At(its, subnetID, i', k')) == key;
      assert Scanned(i, k, i', k');
    }
  }

  lemma CollectOne(its: seq<InstanceType>, compatible: Offering -> bool, subnetID: string, i: int, k: int,
                   cs: seq<Candidate>, seen: set<string>)
    requires 0 <= i < |its| && 0 <= k < |its[i].offerings|
    requires Collected(its, compatible, subnetID, i, k, cs, seen)
    ensures var c := At(its, subnetID, i, k);
            if Usable(its, compatible, i, k) && CandidateKey(c) !in seen
            then Collected(its, compatible, subnetID, i, k + 1, cs + [c], seen + {CandidateKey(c)})
            else Collected(its, compatible, subnetID, i, k + 1, cs, seen)
  {
    SeenGrows(its, compatible, subnetID, i, k, seen);
    ListGrows(its, compatible, subnetID, i, k, cs, seen);
    KeysGrow(cs, seen, At(its, subnetID, i, k));
    if Usable(its, compatible, i, k) && CandidateKey(At(its, subnetID, i, k)) in seen {
      assert seen + {CandidateKey(At(its, subnetID, i, k))} == seen;
    }
  }

  lemma KeysGrow(cs: seq<Candidate>, seen: set<string>, c: Candidate)
    requires KeysSeen(cs, seen)
    ensures CandidateKey(c) !in seen ==> KeysSeen(cs + [c], seen + {CandidateKey(c)})
  {
  }

  lemma SeenGrows(its: seq<InstanceType>, compatible: Offering -> bool, subnetID: string, i: int, k: int,
                  seen: set<string>)
    requires 0 <= i < |its| && 0 <= k < |its[i].offerings|
    requires SeenScanned(its, compatible, subnetID, i, k, seen)
    ensures var seen' := if Usable(its, compatible, i, k) then seen + {CandidateKey(At(its, subnetID, i, k))} else seen;
            SeenScanned(its, compatible, subnetID, i, k + 1, seen')
  {
    forall key: string {
      KeyScannedStep(its, compatible, subnetID, i, k, key);
    }
  }

  lemma ListGrows(its: seq<InstanceType>, compatible: Offering -> bool, subnetID: string, i: int, k: int,
                  cs: seq<Candidate>, seen: set<string>)
    requires 0 <= i < |its| && 0 <= k < |its[i].offerings|
    requires SeenScanned(its, compatible, subnetID, i, k, seen) && ListScanned(its, compatible, subnetID, i, k, cs)
    ensures var c := At(its, subnetID, i, k);
            var cs' := if Usable(its, compatible, i, k) && CandidateKey(c) !in seen then cs + [c] else cs;
            ListScanned(its, compatible, subnetID, i, k + 1, cs')
  {
    if Usable(its, compatible, i, k) {
      FirstIffUnscanned(its, compatible, subnetID, i, k);
    }
    forall c: Candidate {
      CandidateScannedStep(its, compatible, subnetID, i, k, c);
    }
  }

  lemma NextType(its: seq<InstanceType>, compatible: Offering -> bool, subnetID: string, i: int,
                 cs: seq<Candidate>, seen: set<string>)
    requires 0 <= i < |its|
    requires Collected(its, compatible, subnetID, i, |its[i].offerings|, cs, seen)
    ensures Collected(its, compatible, subnetID, i + 1, 0, cs, seen)
  {
    var n := |its[i].offerings|;
    assert forall i', k' :: Usable(its, compatible, i', k') ==> (Scanned(i + 1, 0, i', k') <==> Scanned(i, n, i', k'));
    assert forall key :: KeyScanned(its, compatible, subnetID, i + 1, 0, key) <==>
        KeyScanned(its, compatible, subnetID, i, n, key);
    assert forall c :: CandidateScanned(its, compatible, subnetID, i + 1, 0, c) <==>
        CandidateScanned(its, compatible, subnetID, i, n, c);
  }

  method Collect(its: seq<InstanceType>, compatible: Offering -> bool, subnetID: string) returns (cs: seq<Candidate>)
    ensures forall i, j :: 0 <= i < j < |cs| ==> CandidateKey(cs[i]) != CandidateKey(cs[j])
    ensures forall c :: c in cs <==> IsCandidate(its, compatible, subnetID, c)
  {
    var seen: set<string> := {};
    cs := [];
    for i := 0 to |its|
      invariant Collected(its, compatible, subnetID, i, 0, cs, seen)
    {
      for k := 0 to |its[i].offerings|
        invariant Collected(its, compatible, subnetID, i, k, cs, seen)
      {
        CollectOne(its, compatible, subnetID, i, k, cs, seen);
        var o := its[i].offerings[k];
        if compatible(o) && o.zone != "" {
          var c := ToCandidate(its[i], o, subnetID);
          if CandidateKey(c) !in seen {
            seen := seen + {CandidateKey(c)};
            cs := cs + [c];
          }
        }
      }
      NextType(its, compatible, subnetID, i, cs, seen);
    }
    AllScanned(its, compatible, subnetID, cs, seen);
  }

  /** The deduplicated candidates, sorted; nothing when no subnet was selected. */
  method BuildCreateCandidates(its: seq<InstanceType>, compatible: Offering -> bool, subnetID: string)
    returns (cs: seq<Candidate>)
    ensures subnetID == "" ==> cs == []
    ensures subnetID != "" ==> IsLaunchOrder(its, compatible, subnetID, cs)
    ensures subnetID != "" ==> ListsOfferings(its, compatible, subnetID, cs)
  {
    if subnetID == "" {
      return [];
    }
    var listed := Collect(its, compatible, subnetID);
    BeforeIsWeakOrder();
    cs := SortSlice(Before, listed);
    KeysStayDistinct(listed, cs);
    LaunchOrderMeaning(its, compatible, subnetID, cs);
  }

  lemma AllScanned(its: seq<InstanceType>, compatible: Offering -> bool, subnetID: string,
                   cs: seq<Candidate>, seen: set<string>)
    requires Collected(its, compatible, subnetID, |its|, 0, cs, seen)
    ensures forall c :: c in cs <==> IsCandidate(its, compatible, subnetID, c)
  {
    forall i, k | Usable(its, compatible, i, k) ensures Scanned(|its|, 0, i, k) {
    }
  }

  lemma KeysStayDistinct(cs: seq<Candidate>, cs': seq<Candidate>)
    requires multiset(cs) == multiset(cs')
    requires forall i, j :: 0 <= i < j < |cs| ==> CandidateKey(cs[i]) != CandidateKey(cs[j])
    ensures forall x :: x in cs <==> x in cs'
    ensures forall i, j :: 0 <= i < j < |cs'| ==> CandidateKey(cs'[i]) != CandidateKey(cs'[j])
  {
    SameElements(cs, cs');
    forall i, j | 0 <= i < j < |cs'| ensures CandidateKey(cs'[i]) != CandidateKey(cs'[j]) {
      assert cs'[i] in cs && cs'[j] in cs && cs'[i] != cs'[j];
    }
  }

  // ---------- what a launch order carries ----------

  /** The candidate names this type, this zone and this price. */
  ghost predicate StandsFor(c: Candidate, it: InstanceType, o: Offering, subnetID: string) {
    && c.name == it.name && c.price == o.price && c.zone == o.zone && c.subnetID == subnetID
    && c.capacityType == if o.capacityType == "" then "on-demand" else o.capacityType
  }

  function OfferingKey(it: InstanceType, o: Offering): string {
    (if o.capacityType == "" then "on-demand" else o.capacityType) + "/" + o.zone + "/" + it.name
  }

  /** A matching offering with a zone, and no such offering of the same key listed before it. */
  ghost predicate Leads(its: seq<InstanceType>, compatible: Offering -> bool, i: int, k: int) {
    && 0 <= i < |its| && 0 <= k < |its[i].offerings|
    && compatible(its[i].offerings[k]) && its[i].offerings[k].zone != ""
    && forall i', k' ::
         && 0 <= i' < |its| && 0 <= k' < |its[i'].offerings| && (i' < i || (i' == i && k' < k))
         && compatible(its[i'].offerings[k']) && its[i'].offerings[k'].zone != "" ==>
         OfferingKey(its[i'], its[i'].offerings[k']) != OfferingKey(its[i], its[i].offerings[k])
  }

  /** A lower price, or the same price and a zone before, or both the same and a name not after. */
  ghost predicate NotAfter(c: Candidate, price: real, zone: string, name: string) {
    || c.price < price
    || (c.price == price && StringLess(c.zone, zone))
    || (c.price == price && c.zone == zone && (StringLess(c.name, name) || c.name == name))
  }

  /** `cs` lists exactly the leading offerings, the cheapest first. */
  ghost predicate ListsOfferings(its: seq<InstanceType>, compatible: Offering -> bool, subnetID: string,
                                 cs: seq<Candidate>) {
    && (forall c :: c in cs <==>
          exists i, k :: Leads(its, compatible, i, k) && StandsFor(c, its[i], its[i].offerings[k], subnetID))
    && (forall m, n :: 0 <= m < n < |cs| ==> NotAfter(cs[m], cs[n].price, cs[n].zone, cs[n].name))
  }

  lemma LeadsIsFirst(its: seq<InstanceType>, compatible: Offering -> bool, subnetID: string, i: int, k: int)
    ensures Leads(its, compatible, i, k) <==>
              Usable(its, compatible, i, k) && FirstOfKey(its, compatible, subnetID, i, k)
    ensures Leads(its, compatible, i, k) ==>
              forall c :: StandsFor(c, its[i], its[i].offerings[k], subnetID) <==> c == At(its, subnetID, i, k)
  {
    forall i', k' | Usable(its, compatible, i', k')
      ensures CandidateKey(At(its, subnetID, i', k')) == OfferingKey(its[i'], its[i'].offerings[k'])
    {
    }
  }

  lemma LaunchOrderMeaning(its: seq<InstanceType>, compatible: Offering -> bool, subnetID: string, cs: seq<Candidate>)
    requires IsLaunchOrder(its, compatible, subnetID, cs)
    ensures ListsOfferings(its, compatible, subnetID, cs)
  {
    forall c ensures c in cs <==>
      exists i, k :: Leads(its, compatible, i, k) && StandsFor(c, its[i], its[i].offerings[k], subnetID)
    {
      forall i, k ensures Leads(its, compatible, i, k) && StandsFor(c, its[i], its[i].offerings[k], subnetID) <==>
        Usable(its, compatible, i, k) && FirstOfKey(its, compatible, subnetID, i, k) && c == At(its, subnetID, i, k)
      {
        LeadsIsFirst(its, compatible, subnetID, i, k);
      }
    }
    forall m, n | 0 <= m < n < |cs| ensures NotAfter(cs[m], cs[n].price, cs[n].zone, cs[n].name) {
      NotBeforeMeansAfter(cs[n], cs[m]);
    }
  }

  lemma NotBeforeMeansAfter(c: Candidate, d: Candidate)
    ensures !Before(c, d) ==> NotAfter(d, c.price, c.zone, c.name)
  {
    StringLessTotal(c.zone, d.zone);
    StringLessTotal(c.name, d.name);
  }

  // ---------- when the order depends on how the types are listed ----------

  /** What a launch guarantees of its requirements: only on-demand offerings match. */
  ghost predicate OnDemandOnly(its: seq<InstanceType>, compatible: Offering -> bool) {
    forall i, k :: Usable(its, compatible, i, k) ==> CapacityTypeOf(its[i].offerings[k]) == ON_DEMAND
  }

  ghost predicate DistinctNames(its: seq<InstanceType>) {
    forall i, j :: 0 <= i < j < |its| ==> its[i].name != its[j].name
  }

  /** Another listing of the same types. */
  ghost predicate Relisted(its: seq<InstanceType>, its': seq<InstanceType>) {
    DistinctNames(its') && forall it :: it in its <==> it in its'
  }

  /** Usable offerings of two different types have one deduplication key. */
  ghost predicate SharesKey(its: seq<InstanceType>, compatible: Offering -> bool, subnetID: string) {
    exists i, k, j, m :: Clashes(its, compatible, subnetID, i, k, j, m)
  }

  ghost predicate Clashes(its: seq<InstanceType>, compatible: Offering -> bool, subnetID: string,
                          i: int, k: int, j: int, m: int) {
    && Usable(its, compatible, i, k) && Usable(its, compatible, j, m) && i != j
    && CandidateKey(At(its, subnetID, i, k)) == CandidateKey(At(its, subnetID, j, m))
  }

  /** The first usable offering of its key within its own type. */
  ghost predicate FirstInType(it: InstanceType, compatible: Offering -> bool, subnetID: string, k: int)
    requires 0 <= k < |it.offerings|
  {
    forall k' :: 0 <= k' < k && compatible(it.offerings[k']) && it.offerings[k'].zone != "" ==>
      CandidateKey(ToCandidate(it, it.offerings[k'], subnetID))
      != CandidateKey(ToCandidate(it, it.offerings[k], subnetID))
  }

  lemma FirstIsLocal(its: seq<InstanceType>, compatible: Offering -> bool, subnetID: string, i: int, k: int)
    requires Usable(its, compatible, i, k) && !SharesKey(its, compatible, subnetID)
    ensures FirstOfKey(its, compatible, subnetID, i, k) <==> FirstInType(its[i], compatible, subnetID, k)
  {
    if FirstOfKey(its, compatible, subnetID, i, k) {
      forall k' | 0 <= k' < k && compatible(its[i].offerings[k']) && its[i].offerings[k'].zone != ""
        ensures CandidateKey(At(its, subnetID, i, k')) != CandidateKey(At(its, subnetID, i, k))
      {
        assert Usable(its, compatible, i, k');
      }
    } else {
      var i', k' :| Usable(its, compatible, i', k') && (i' < i || (i' == i && k' < k))
                 && CandidateKey(At(its, subnetID, i', k')) == CandidateKey(At(its, subnetID, i, k));
      assert i' != i ==> Clashes(its, compatible, subnetID, i', k', i, k);
    }
  }

  lemma ClashMoves(its: seq<InstanceType>, its': seq<InstanceType>, compatible: Offering -> bool, subnetID: string)
    requires Relisted(its, its') && SharesKey(its', compatible, subnetID)
    ensures SharesKey(its, compatible, subnetID)
  {
    var i, k, j, m :| Clashes(its', compatible, subnetID, i, k, j, m);
    assert its'[i] in its && its'[j] in its && its'[i].name != its'[j].name;
    var i' :| 0 <= i' < |its| && its[i'] == its'[i];
    var j' :| 0 <= j' < |its| && its[j'] == its'[j];
    assert Clashes(its, compatible, subnetID, i', k, j', m);
  }

  lemma CandidateMoves(its: seq<InstanceType>, its': seq<InstanceType>, compatible: Offering -> bool,
                       subnetID: string, c: Candidate)
    requires !SharesKey(its, compatible, subnetID) && !SharesKey(its', compatible, subnetID)
    requires forall it :: it in its ==> it in its'
    requires IsCandidate(its, compatible, subnetID, c)
    ensures IsCandidate(its', compatible, subnetID, c)
  {
    var i, k :| Usable(its, compatible, i, k) && FirstOfKey(its, compatible, subnetID, i, k)
             && c == At(its, subnetID, i, k);
    assert its[i] in its';
    var j :| 0 <= j < |its'| && its'[j] == its[i];
    FirstIsLocal(its, compatible, subnetID, i, k);
    assert Usable(its', compatible, j, k);
    FirstIsLocal(its', compatible, subnetID, j, k);
    assert c == At(its', subnetID, j, k);
  }

  /** Without a shared key, no other listing gives another launch order. */
  lemma OrderIsFixed(its: seq<InstanceType>, its': seq<InstanceType>, compatible: Offering -> bool,
                     subnetID: string, cs: seq<Candidate>, cs': seq<Candidate>)
    requires OnDemandOnly(its, compatible) && DistinctNames(its) && Relisted(its, its')
    requires !SharesKey(its, compatible, subnetID)
    requires IsLaunchOrder(its, compatible, subnetID, cs) && IsLaunchOrder(its', compatible, subnetID, cs')
    ensures cs == cs'
  {
    if SharesKey(its', compatible, subnetID) {
      ClashMoves(its, its', compatible, subnetID);
      assert false;
    }
    forall c ensures c in cs <==> c in cs' {
      if c in cs {
        CandidateMoves(its, its', compatible, subnetID, c);
      }
      if c in cs' {
        CandidateMoves(its', its, compatible, subnetID, c);
      }
    }
    BeforeIsWeakOrder();
    forall x, y | x in cs && y in cs && x != y ensures Before(x, y) || Before(y, x) {
      StringLessTotal(x.zone, y.zone);
      StringLessTotal(x.name, y.name);
      var m :| 0 <= m < |cs| && cs[m] == x;
      var n :| 0 <= n < |cs| && cs[n] == y;
      assert CandidateKey(cs[m]) != CandidateKey(cs[n]);
    }
    SortedIsUnique(Before, cs, cs');
  }

  /** Every listing has a launch order. */
  lemma {:induction false} LaunchOrderExists(its: seq<InstanceType>, compatible: Offering -> bool, subnetID: string)
    returns (cs: seq<Candidate>)
    ensures IsLaunchOrder(its, compatible, subnetID, cs)
  {
    var items := set i, k | 0 <= i < |its| && 0 <= k < |its[i].offerings| && Usable(its, compatible, i, k)
                         && FirstOfKey(its, compatible, subnetID, i, k) :: At(its, subnetID, i, k);
    BeforeIsWeakOrder();
    cs := SortedListing(Before, items);
    forall c ensures c in cs <==> IsCandidate(its, compatible, subnetID, c) {
    }
    forall m, n | 0 <= m < n < |cs| ensures CandidateKey(cs[m]) != CandidateKey(cs[n]) {
      assert cs[m] in items && cs[n] in items;
      if CandidateKey(cs[m]) == CandidateKey(cs[n]) {
        OneCandidatePerKey(its, compatible, subnetID, cs[m], cs[n]);
      }
    }
  }

  lemma OneCandidatePerKey(its: seq<InstanceType>, compatible: Offering -> bool, subnetID: string,
                           c: Candidate, d: Candidate)
    requires IsCandidate(its, compatible, subnetID, c) && IsCandidate(its, compatible, subnetID, d)
    requires CandidateKey(c) == CandidateKey(d)
    ensures c == d
  {
    var i, k :| Usable(its, compatible, i, k) && FirstOfKey(its, compatible, subnetID, i, k)
             && c == At(its, subnetID, i, k);
    var j, m :| Usable(its, compatible, j, m) && FirstOfKey(its, compatible, subnetID, j, m)
             && d == At(its, subnetID, j, m);
    assert !(i < j || (i == j && k < m)) && !(j < i || (j == i && m < k));
  }

  lemma {:induction false} FirstInTypeExists(it: InstanceType, compatible: Offering -> bool, subnetID: string, k: int)
    returns (first: int)
    requires 0 <= k < |it.offerings| && compatible(it.offerings[k]) && it.offerings[k].zone != ""
    ensures 0 <= first <= k && compatible(it.offerings[first]) && it.offerings[first].zone != ""
    ensures CandidateKey(ToCandidate(it, it.offerings[first], subnetID))
         == CandidateKey(ToCandidate(it, it.offerings[k], subnetID))
    ensures FirstInType(it, compatible, subnetID, first)
    decreases k
  {
    first := k;
    if !FirstInType(it, compatible, subnetID, k) {
      var k' :| 0 <= k' < k && compatible(it.offerings[k']) && it.offerings[k'].zone != ""
             && CandidateKey(ToCandidate(it, it.offerings[k'], subnetID))
             == CandidateKey(ToCandidate(it, it.offerings[k], subnetID));
      first := FirstInTypeExists(it, compatible, subnetID, k');
    }
  }

  function ToFront(its: seq<InstanceType>, t: int): seq<InstanceType>
    requires 0 <= t < |its|
  {
    [its[t]] + its[..t] + its[t + 1..]
  }

  lemma FrontIsRelisted(its: seq<InstanceType>, t: int)
    requires DistinctNames(its) && 0 <= t < |its|
    ensures Relisted(its, ToFront(its, t))
  {
    var its' := ToFront(its, t);
    forall i | 0 <= i < |its'| ensures its'[i] == its[if i == 0 then t else if i <= t then i - 1 else i] {
    }
    forall it | it in its ensures it in its' {
      var i :| 0 <= i < |its| && its[i] == it;
      assert its'[if i == t then 0 else if i < t then i + 1 else i] == it;
    }
  }

  /** With type `t` listed first, the key of any of its usable offerings goes to that type. */
  lemma FrontTakesKey(its: seq<InstanceType>, t: int, k: int, compatible: Offering -> bool, subnetID: string)
    returns (c: Candidate)
    requires Usable(its, compatible, t, k)
    ensures IsCandidate(ToFront(its, t), compatible, subnetID, c)
    ensures c.name == its[t].name && CandidateKey(c) == CandidateKey(At(its, subnetID, t, k))
  {
    var its' := ToFront(its, t);
    var first := FirstInTypeExists(its[t], compatible, subnetID, k);
    c := At(its', subnetID, 0, first);
    assert Usable(its', compatible, 0, first) && FirstOfKey(its', compatible, subnetID, 0, first);
  }

  /** With a shared key, listing one of the two types first gives it to another type than before. */
  lemma SharedKeyShows(its: seq<InstanceType>, compatible: Offering -> bool, subnetID: string, cs: seq<Candidate>)
    returns (its': seq<InstanceType>, cs': seq<Candidate>)
    requires DistinctNames(its) && SharesKey(its, compatible, subnetID)
    requires IsLaunchOrder(its, compatible, subnetID, cs)
    ensures Relisted(its, its') && IsLaunchOrder(its', compatible, subnetID, cs') && cs' != cs
  {
    var i, k, j, m :| Clashes(its, compatible, subnetID, i, k, j, m);
    var c := FrontTakesKey(its, i, k, compatible, subnetID);
    var d := FrontTakesKey(its, j, m, compatible, subnetID);
    assert c.name != d.name && CandidateKey(c) == CandidateKey(d);
    var t := if c in cs then j else i;
    FrontIsRelisted(its, t);
    its' := ToFront(its, t);
    cs' := LaunchOrderExists(its', compatible, subnetID);
    if c in cs && d in cs {
      OneCandidatePerKey(its, compatible, subnetID, c, d);
    }
  }

  /** Listings of the same types give the same launch order, so that neither the map order of the
      listing nor the unstable sort can show, if and only if no two types share a deduplication key. */
  lemma OrderIsFixedIff(its: seq<InstanceType>, compatible: Offering -> bool, subnetID: string, cs: seq<Candidate>)
    requires OnDemandOnly(its, compatible) && DistinctNames(its) && IsLaunchOrder(its, compatible, subnetID, cs)
    ensures !SharesKey(its, compatible, subnetID) <==>
              forall its', cs' :: Relisted(its, its') && IsLaunchOrder(its', compatible, subnetID, cs') ==> cs' == cs
  {
    if SharesKey(its, compatible, subnetID) {
      var _, _ := SharedKeyShows(its, compatible, subnetID, cs);
    } else {
      forall its', cs' | Relisted(its, its') && IsLaunchOrder(its', compatible, subnetID, cs') ensures cs' == cs {
        OrderIsFixed(its, its', compatible, subnetID, cs, cs');
      }
    }
  }

  /** No key is shared when the zones of usable offerings are free of the separator. */
  ghost predicate CleanZones(its: seq<InstanceType>, compatible: Offering -> bool) {
    forall i, k :: Usable(its, compatible, i, k) ==> '/' !in its[i].offerings[k].zone
  }

  lemma CleanZonesShareNoKey(its: seq<InstanceType>, compatible: Offering -> bool, subnetID: string)
    requires OnDemandOnly(its, compatible) && DistinctNames(its) && CleanZones(its, compatible)
    ensures !SharesKey(its, compatible, subnetID)
  {
    if SharesKey(its, compatible, subnetID) {
      var i, k, j, m :| Clashes(its, compatible, subnetID, i, k, j, m);
      KeysOfOnDemand(At(its, subnetID, i, k), At(its, subnetID, j, m));
      assert false;
    }
  }

  lemma KeysOfOnDemand(a: Candidate, b: Candidate)
    requires a.capacityType == b.capacityType == ON_DEMAND && '/' !in a.zone && '/' !in b.zone
    ensures CandidateKey(a) == CandidateKey(b) <==> a.zone == b.zone && a.name == b.name
  {
    if CandidateKey(a) == CandidateKey(b) {
      assert CandidateKey(a) == ON_DEMAND + "/" + (a.zone + "/" + a.name);
      assert CandidateKey(b) == ON_DEMAND + "/" + (b.zone + "/" + b.name);
      OfferingCache.SplitAtSlash(ON_DEMAND, ON_DEMAND, a.zone + "/" + a.name, b.zone + "/" + b.name);
      OfferingCache.SplitAtSlash(a.zone, b.zone, a.name, b.name);
    }
  }

  /** With the separator in a zone name, two types can share a key. */
  lemma SlashSharesKey()
    ensures var o, q := Offering(ON_DEMAND, "a/b", true, 1.0), Offering(ON_DEMAND, "a", true, 1.0);
            SharesKey([InstanceType("c", [o], 10), InstanceType("b/c", [q], 10)], _ => true, "s")
  {
    var o, q := Offering(ON_DEMAND, "a/b", true, 1.0), Offering(ON_DEMAND, "a", true, 1.0);
    var its := [InstanceType("c", [o], 10), InstanceType("b/c", [q], 10)];
    assert CandidateKey(At(its, "s", 0, 0)) == "on-demand/a/b/c" == CandidateKey(At(its, "s", 1, 0));
    assert Clashes(its, _ => true, "s", 0, 0, 1, 0);
  }
}
