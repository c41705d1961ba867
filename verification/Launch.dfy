/** Launching one node: select a subnet, try candidates in order, remember refusals, release. */
module Launch {
  import opened Base
  import opened Ordering
  import opened Offerings
  import opened Candidates
  import OfferingCache
  import SubnetLedger
  import SubnetProvider

  datatype CloudError = ServiceError(code: string, message: string) | OtherError(message: string)

  /** What the cloud does with one CreateNode request. An empty uid stands for a missing one. */
  datatype Outcome = Created(uid: string, serverID: string) | Refused(error: CloudError)

  /** The outcome of a request and when it arrived. */
  datatype Reply = Reply(outcome: Outcome, at: int)

  datatype Instance = Instance(nodeID: string, serverID: string, flavor: string, zone: string)

  datatype Failure =
    | Misconfigured(message: string)
    | InsufficientCapacity(message: string)
    | LaunchFailed(message: string)

  predicate HasAt(s: string, part: string, i: int) {
    0 <= i <= |s| - |part| && s[i..i + |part|] == part
  }

  predicate Contains(s: string, part: string) {
    exists i :: 0 <= i <= |s| && HasAt(s, part, i)
  }

  predicate IsInsufficientCapacity(e: CloudError) {
    && e.ServiceError?
    && (if e.code != "" then e.code == "CCE_CM.0021"
        else || Contains(e.message, "insufficient in specified az") || Contains(e.message, "insufficient capacity")
             || Contains(e.message, "out of stock") || Contains(e.message, "sold out")
             || Contains(e.message, "sell out"))
  }

  predicate IsUnsupportedNetwork(e: CloudError) {
    e.ServiceError? && (e.code == "CCE.01400025" || Contains(e.message, "Eni network is not supported"))
  }

  ghost predicate Mentions(message: string, part: string) {
    exists a, b :: message == a + part + b
  }

  lemma ContainsMeaning(s: string, part: string)
    ensures Contains(s, part) <==> Mentions(s, part)
  {
    if i :| HasAt(s, part, i) {
      assert s == s[..i] + part + s[i + |part|..];
    }
    if a, b :| s == a + part + b {
      assert HasAt(s, part, |a|);
    }
  }

  /** Which errors count as a lack of capacity and which as an unsupported network. */
  lemma RefusalMeaning(e: CloudError)
    ensures MovesOn(Refused(e)) <==> IsInsufficientCapacity(e) || IsUnsupportedNetwork(e)
    ensures e.OtherError? ==> !IsInsufficientCapacity(e) && !IsUnsupportedNetwork(e)
    ensures e.ServiceError? && e.code != "" ==> (IsInsufficientCapacity(e) <==> e.code == "CCE_CM.0021")
    ensures e.ServiceError? && e.code == "" ==>
              (IsInsufficientCapacity(e) <==>
                exists part :: Mentions(e.message, part)
                            && part in {"insufficient in specified az", "insufficient capacity", "out of stock",
                                        "sold out", "sell out"})
    ensures e.ServiceError? ==>
              (IsUnsupportedNetwork(e) <==>
                e.code == "CCE.01400025" || Mentions(e.message, "Eni network is not supported"))
  {
    forall part {
      ContainsMeaning(e.message, part);
    }
  }

  /** The refusals after which the next candidate is tried. */
  predicate MovesOn(o: Outcome) {
    o.Refused? && (IsInsufficientCapacity(o.error) || IsUnsupportedNetwork(o.error))
  }

  /** The first `n` requests were refused in that way. */
  predicate AllRefused(replies: nat -> Reply, n: int) {
    forall i :: 0 <= i < n ==> MovesOn(replies(i).outcome)
  }

  function CacheKey(c: Candidate): string {
    OfferingCache.Key(c.capacityType, c.name, c.zone)
  }

  /** The cache after the first `n` candidates were refused and marked. */
  function MarkedAll(entries: OfferingCache.Entries, ttl: int, cs: seq<Candidate>, replies: nat -> Reply, n: nat)
    : OfferingCache.Entries
    requires n <= |cs|
  {
    if n == 0 then entries
    else OfferingCache.Mark(MarkedAll(entries, ttl, cs, replies, n - 1), CacheKey(cs[n - 1]), ttl, replies(n - 1).at)
  }

  predicate Open(entries: OfferingCache.Entries, c: Candidate, now: int) {
    !OfferingCache.Suppressed(entries, CacheKey(c), now)
  }

  /** The candidates a filter step at one instant keeps. */
  function Unsuppressed(entries: OfferingCache.Entries, cs: seq<Candidate>, now: int): seq<Candidate> {
    if cs == [] then [] else
    var c := cs[|cs| - 1];
    Unsuppressed(entries, cs[..|cs| - 1], now) + if Open(entries, c, now) then [c] else []
  }

  predicate DistinctKeys(cs: seq<Candidate>) {
    forall i, j :: 0 <= i < j < |cs| ==> CandidateKey(cs[i]) != CandidateKey(cs[j])
  }

  lemma {:induction false} UnsuppressedMembers(entries: OfferingCache.Entries, cs: seq<Candidate>, now: int)
    ensures forall c :: c in Unsuppressed(entries, cs, now) <==> c in cs && Open(entries, c, now)
  {
    if cs != [] {
      UnsuppressedMembers(entries, cs[..|cs| - 1], now);
      assert cs == cs[..|cs| - 1] + [cs[|cs| - 1]];
    }
  }

  /** The candidates kept stand in the order in which they were listed. */
  lemma {:induction false} UnsuppressedStaysSorted(entries: OfferingCache.Entries, cs: seq<Candidate>, now: int)
    requires SortedBy(Before, cs)
    ensures SortedBy(Before, Unsuppressed(entries, cs, now))
  {
    if cs != [] {
      var n := |cs| - 1;
      UnsuppressedStaysSorted(entries, cs[..n], now);
      UnsuppressedMembers(entries, cs[..n], now);
      forall c | c in Unsuppressed(entries, cs[..n], now) ensures !Before(cs[n], c) {
        assert c in cs[..n];
      }
    }
  }

  lemma {:induction false} UnsuppressedStaysDistinct(entries: OfferingCache.Entries, cs: seq<Candidate>, now: int)
    requires DistinctKeys(cs)
    ensures DistinctKeys(Unsuppressed(entries, cs, now))
  {
    if cs != [] {
      var n := |cs| - 1;
      UnsuppressedStaysDistinct(entries, cs[..n], now);
      UnsuppressedMembers(entries, cs[..n], now);
      forall c | c in Unsuppressed(entries, cs[..n], now) ensures CandidateKey(c) != CandidateKey(cs[n]) {
        assert c in cs[..n];
      }
    }
  }

  /** A candidate that is not suppressed at the filter step. */
  ghost predicate IsOpen(its: seq<InstanceType>, compatible: Offering -> bool, subnetID: string,
                         entries: OfferingCache.Entries, now: int, c: Candidate) {
    IsCandidate(its, compatible, subnetID, c) && Open(entries, c, now)
  }

  /** `requests` asks for open candidates only, in order, none twice and none skipped. */
  ghost predicate AskedInOrder(its: seq<InstanceType>, compatible: Offering -> bool, subnetID: string,
                               entries: OfferingCache.Entries, now: int, requests: seq<Candidate>) {
    && (forall c :: c in requests ==> IsOpen(its, compatible, subnetID, entries, now, c))
    && (forall i, j :: 0 <= i < j < |requests| ==>
          CandidateKey(requests[i]) != CandidateKey(requests[j]) && !Before(requests[j], requests[i]))
    && (requests != [] ==> forall c :: IsOpen(its, compatible, subnetID, entries, now, c) ==>
          c in requests || !Before(c, requests[|requests| - 1]))
  }

  /** Every open candidate was asked for. */
  ghost predicate AskedAll(its: seq<InstanceType>, compatible: Offering -> bool, subnetID: string,
                           entries: OfferingCache.Entries, now: int, requests: seq<Candidate>) {
    forall c :: IsOpen(its, compatible, subnetID, entries, now, c) ==> c in requests
  }

  /** The last request was refused for lack of capacity. */
  predicate EndedShort(requests: seq<Candidate>, replies: nat -> Reply) {
    requests != [] ==>
      var last := replies(|requests| - 1).outcome;
      last.Refused? && IsInsufficientCapacity(last.error)
  }

  function RefusedCount(requests: seq<Candidate>, replies: nat -> Reply): nat {
    if requests == [] || MovesOn(replies(|requests| - 1).outcome) then |requests| else |requests| - 1
  }

  predicate Succeeds(r: Instance, requests: seq<Candidate>, replies: nat -> Reply) {
    && requests != []
    && var last, c := replies(|requests| - 1).outcome, requests[|requests| - 1];
       last.Created? && last.uid != "" && r == Instance(last.uid, last.serverID, c.name, c.zone)
  }

  /** A launch in one subnet, from the cache `before` to the cache `after`. Requests go to the open
      candidates in order, each at most once, none skipped; all but the last were refused and exactly
      the refused are newly marked; success is the last request's instance; capacity is reported as
      insufficient when no open candidate is left, and only for that reason. */
  ghost predicate Attempted(its: seq<InstanceType>, compatible: Offering -> bool, subnetID: string, now: int, ttl: int,
                            before: OfferingCache.Entries, after: OfferingCache.Entries, replies: nat -> Reply,
                            r: Result<Instance, Failure>, requests: seq<Candidate>) {
    && AskedInOrder(its, compatible, subnetID, before, now, requests)
    && AllRefused(replies, |requests| - 1)
    && after == MarkedAll(before, ttl, requests, replies, RefusedCount(requests, replies))
    && (r.Ok? ==> Succeeds(r.value, requests, replies))
    && (requests != [] && replies(|requests| - 1).outcome.Created? ==>
          (r.Ok? <==> replies(|requests| - 1).outcome.uid != ""))
    && (r.Err? && r.error.InsufficientCapacity? <==>
          AskedAll(its, compatible, subnetID, before, now, requests) && EndedShort(requests, replies))
  }

  /** The offering is not suppressed. */
  predicate IsFree(entries: OfferingCache.Entries, it: InstanceType, o: Offering, now: int) {
    var capacityType := if o.capacityType == "" then "on-demand" else o.capacityType;
    !OfferingCache.Suppressed(entries, capacityType + "/" + it.name + "/" + o.zone, now)
  }

  /** A leading offering that is not suppressed. */
  ghost predicate Eligible(its: seq<InstanceType>, compatible: Offering -> bool, entries: OfferingCache.Entries,
                           now: int, i: int, k: int) {
    Leads(its, compatible, i, k) && IsFree(entries, its[i], its[i].offerings[k], now)
  }

  ghost predicate WasAsked(requests: seq<Candidate>, it: InstanceType, o: Offering, subnetID: string) {
    exists c :: c in requests && StandsFor(c, it, o, subnetID)
  }

  /** The requests are for eligible offerings, once each and in order of price, zone and name; an eligible
      offering that was not asked for does not come before the last one that was. */
  ghost predicate AskedCheapest(its: seq<InstanceType>, compatible: Offering -> bool, subnetID: string,
                                entries: OfferingCache.Entries, now: int, requests: seq<Candidate>) {
    && (forall c :: c in requests ==>
          exists i, k :: Eligible(its, compatible, entries, now, i, k)
                      && StandsFor(c, its[i], its[i].offerings[k], subnetID))
    && (forall m, n :: 0 <= m < n < |requests| ==>
          && NotAfter(requests[m], requests[n].price, requests[n].zone, requests[n].name)
          && (requests[m].name != requests[n].name || requests[m].zone != requests[n].zone
              || requests[m].capacityType != requests[n].capacityType))
    && (requests != [] ==> forall i, k :: Eligible(its, compatible, entries, now, i, k) ==>
          || WasAsked(requests, its[i], its[i].offerings[k], subnetID)
          || NotAfter(requests[|requests| - 1], its[i].offerings[k].price, its[i].offerings[k].zone, its[i].name))
  }

  /** Nothing eligible is left to ask for. */
  ghost predicate NothingLeft(its: seq<InstanceType>, compatible: Offering -> bool, subnetID: string,
                              entries: OfferingCache.Entries, now: int, requests: seq<Candidate>) {
    forall i, k :: Eligible(its, compatible, entries, now, i, k) ==>
      WasAsked(requests, its[i], its[i].offerings[k], subnetID)
  }

  /** The reply ends a request without ending the launch. */
  predicate TurnedDown(reply: Reply) {
    reply.outcome.Refused? && (IsInsufficientCapacity(reply.outcome.error) || IsUnsupportedNetwork(reply.outcome.error))
  }

  predicate Names(c: Candidate, key: string) {
    key == c.capacityType + "/" + c.name + "/" + c.zone
  }

  /** Exactly what was turned down is newly suppressed, for one lifetime from its last refusal (for ever when
      the lifetime is not positive). */
  ghost predicate MarksTurnedDown(before: OfferingCache.Entries, after: OfferingCache.Entries, ttl: int,
                                  requests: seq<Candidate>, replies: nat -> Reply) {
    && (forall m: nat, key, t ::
          && m < |requests| && TurnedDown(replies(m)) && Names(requests[m], key)
          && (forall n: nat :: m < n < |requests| && TurnedDown(replies(n)) ==> !Names(requests[n], key)) ==>
          (OfferingCache.Suppressed(after, key, t) <==> ttl <= 0 || t <= replies(m).at + ttl))
    && (forall key :: (forall m: nat :: m < |requests| && TurnedDown(replies(m)) ==> !Names(requests[m], key)) ==>
          (key in after <==> key in before) && (key in after ==> after[key] == before[key]))
  }

  /** How a launch ends: with the node of its last request, or for lack of capacity when nothing eligible is
      left and the last request, if any, was refused for that reason, or otherwise. */
  ghost predicate EndsAs(its: seq<InstanceType>, compatible: Offering -> bool, subnetID: string, now: int,
                         before: OfferingCache.Entries, replies: nat -> Reply,
                         r: Result<Instance, Failure>, requests: seq<Candidate>) {
    && (forall m: nat :: m < |requests| - 1 ==> TurnedDown(replies(m)))
    && (r.Ok? ==>
          && requests != []
          && var c, outcome := requests[|requests| - 1], replies(|requests| - 1).outcome;
             && outcome.Created? && outcome.uid != "" && r.value.nodeID == outcome.uid
             && r.value.serverID == outcome.serverID && r.value.flavor == c.name && r.value.zone == c.zone)
    && (requests != [] && replies(|requests| - 1).outcome.Created? && replies(|requests| - 1).outcome.uid != "" ==>
          r.Ok?)
    && (r.Err? && r.error.InsufficientCapacity? <==>
          && NothingLeft(its, compatible, subnetID, before, now, requests)
          && (requests != [] ==>
                && replies(|requests| - 1).outcome.Refused?
                && IsInsufficientCapacity(replies(|requests| - 1).outcome.error)))
  }

  lemma OpenMeansEligible(its: seq<InstanceType>, compatible: Offering -> bool, subnetID: string,
                          entries: OfferingCache.Entries, now: int, c: Candidate)
    ensures IsOpen(its, compatible, subnetID, entries, now, c) <==>
              exists i, k :: Eligible(its, compatible, entries, now, i, k)
                          && StandsFor(c, its[i], its[i].offerings[k], subnetID)
  {
    forall i, k ensures
        Eligible(its, compatible, entries, now, i, k) && StandsFor(c, its[i], its[i].offerings[k], subnetID) <==>
        Usable(its, compatible, i, k) && FirstOfKey(its, compatible, subnetID, i, k) && c == At(its, subnetID, i, k)
        && Open(entries, c, now)
    {
      LeadsIsFirst(its, compatible, subnetID, i, k);
      if Leads(its, compatible, i, k) {
        FreeMeansOpen(its, subnetID, entries, now, i, k);
      }
    }
  }

  lemma EligibleIsOpen(its: seq<InstanceType>, compatible: Offering -> bool, subnetID: string,
                       entries: OfferingCache.Entries, now: int, i: int, k: int)
    requires Eligible(its, compatible, entries, now, i, k)
    ensures IsOpen(its, compatible, subnetID, entries, now, At(its, subnetID, i, k))
    ensures StandsFor(At(its, subnetID, i, k), its[i], its[i].offerings[k], subnetID)
    ensures forall c :: StandsFor(c, its[i], its[i].offerings[k], subnetID) <==> c == At(its, subnetID, i, k)
  {
    LeadsIsFirst(its, compatible, subnetID, i, k);
    FreeMeansOpen(its, subnetID, entries, now, i, k);
  }

  lemma AskedInOrderMeaning(its: seq<InstanceType>, compatible: Offering -> bool, subnetID: string,
                            entries: OfferingCache.Entries, now: int, requests: seq<Candidate>)
    requires AskedInOrder(its, compatible, subnetID, entries, now, requests)
    ensures AskedCheapest(its, compatible, subnetID, entries, now, requests)
  {
    forall c | c in requests
      ensures exists i, k :: Eligible(its, compatible, entries, now, i, k)
                          && StandsFor(c, its[i], its[i].offerings[k], subnetID)
    {
      OpenMeansEligible(its, compatible, subnetID, entries, now, c);
    }
    forall m, n | 0 <= m < n < |requests|
      ensures NotAfter(requests[m], requests[n].price, requests[n].zone, requests[n].name)
    {
      NotBeforeMeansAfter(requests[n], requests[m]);
    }
    forall i, k | requests != [] && Eligible(its, compatible, entries, now, i, k)
      ensures
        || WasAsked(requests, its[i], its[i].offerings[k], subnetID)
        || NotAfter(requests[|requests| - 1], its[i].offerings[k].price, its[i].offerings[k].zone, its[i].name)
    {
      EligibleIsOpen(its, compatible, subnetID, entries, now, i, k);
      NotBeforeMeansAfter(At(its, subnetID, i, k), requests[|requests| - 1]);
    }
  }

  lemma AskedAllMeaning(its: seq<InstanceType>, compatible: Offering -> bool, subnetID: string,
                        entries: OfferingCache.Entries, now: int, requests: seq<Candidate>)
    ensures AskedAll(its, compatible, subnetID, entries, now, requests) <==>
              NothingLeft(its, compatible, subnetID, entries, now, requests)
  {
    forall i, k | Eligible(its, compatible, entries, now, i, k)
      ensures IsOpen(its, compatible, subnetID, entries, now, At(its, subnetID, i, k))
      ensures WasAsked(requests, its[i], its[i].offerings[k], subnetID) <==> At(its, subnetID, i, k) in requests
    {
      EligibleIsOpen(its, compatible, subnetID, entries, now, i, k);
    }
    forall c | IsOpen(its, compatible, subnetID, entries, now, c)
      ensures exists i, k :: Eligible(its, compatible, entries, now, i, k) && c == At(its, subnetID, i, k)
    {
      OpenMeansEligible(its, compatible, subnetID, entries, now, c);
      var i, k :| Eligible(its, compatible, entries, now, i, k)
               && StandsFor(c, its[i], its[i].offerings[k], subnetID);
      EligibleIsOpen(its, compatible, subnetID, entries, now, i, k);
    }
  }

  lemma MarkedMeaning(before: OfferingCache.Entries, after: OfferingCache.Entries, ttl: int, requests: seq<Candidate>,
                      replies: nat -> Reply)
    requires AllRefused(replies, |requests| - 1)
    requires after == MarkedAll(before, ttl, requests, replies, RefusedCount(requests, replies))
    ensures MarksTurnedDown(before, after, ttl, requests, replies)
  {
    var n := RefusedCount(requests, replies);
    RefusedAreMarked(before, ttl, requests, replies, n);
    forall m: nat | m < |requests| ensures TurnedDown(replies(m)) <==> m < n {
      assert MovesOn(replies(m).outcome) <==> TurnedDown(replies(m));
    }
    forall c: Candidate, key: string ensures Names(c, key) <==> key == CacheKey(c) {
    }
  }

  /** A launch told from the offerings and replies alone. */
  lemma AttemptMeaning(its: seq<InstanceType>, compatible: Offering -> bool, subnetID: string, now: int, ttl: int,
                       before: OfferingCache.Entries, after: OfferingCache.Entries, replies: nat -> Reply,
                       r: Result<Instance, Failure>, requests: seq<Candidate>)
    requires Attempted(its, compatible, subnetID, now, ttl, before, after, replies, r, requests)
    ensures AskedCheapest(its, compatible, subnetID, before, now, requests)
    ensures EndsAs(its, compatible, subnetID, now, before, replies, r, requests)
    ensures MarksTurnedDown(before, after, ttl, requests, replies)
  {
    AskedInOrderMeaning(its, compatible, subnetID, before, now, requests);
    AskedAllMeaning(its, compatible, subnetID, before, now, requests);
    MarkedMeaning(before, after, ttl, requests, replies);
    forall m: nat | m < |requests| - 1 ensures TurnedDown(replies(m)) {
      assert MovesOn(replies(m).outcome);
    }
  }

  /** An eligible offering that was not turned down. */
  ghost predicate StillOpen(its: seq<InstanceType>, compatible: Offering -> bool, subnetID: string,
                            entries: OfferingCache.Entries, now: int, replies: nat -> Reply,
                            requests: seq<Candidate>, i: int, k: int) {
    && Eligible(its, compatible, entries, now, i, k)
    && forall m: nat :: m < |requests| && TurnedDown(replies(m)) ==>
         !StandsFor(requests[m], its[i], its[i].offerings[k], subnetID)
  }

  /** A successful launch is of the first type, by price, zone and name, among the eligible offerings that
      were not turned down: none of them is cheaper. */
  lemma LaunchedIsCheapest(its: seq<InstanceType>, compatible: Offering -> bool, subnetID: string, now: int,
                           before: OfferingCache.Entries, replies: nat -> Reply,
                           r: Result<Instance, Failure>, requests: seq<Candidate>)
    requires AskedCheapest(its, compatible, subnetID, before, now, requests)
    requires EndsAs(its, compatible, subnetID, now, before, replies, r, requests) && r.Ok?
    ensures requests != []
    ensures var c := requests[|requests| - 1];
            && c.name == r.value.flavor && c.zone == r.value.zone
            && forall i, k :: StillOpen(its, compatible, subnetID, before, now, replies, requests, i, k) ==>
                 && c.price <= its[i].offerings[k].price
                 && NotAfter(c, its[i].offerings[k].price, its[i].offerings[k].zone, its[i].name)
  {
    forall i, k | StillOpen(its, compatible, subnetID, before, now, replies, requests, i, k)
      ensures requests[|requests| - 1].price <= its[i].offerings[k].price
      ensures NotAfter(requests[|requests| - 1], its[i].offerings[k].price, its[i].offerings[k].zone, its[i].name)
    {
      if WasAsked(requests, its[i], its[i].offerings[k], subnetID) {
        LastIsNotAfter(its, compatible, subnetID, now, before, replies, requests, i, k);
      }
    }
  }

  lemma LastIsNotAfter(its: seq<InstanceType>, compatible: Offering -> bool, subnetID: string, now: int,
                       before: OfferingCache.Entries, replies: nat -> Reply, requests: seq<Candidate>, i: int, k: int)
    requires 0 <= i < |its| && 0 <= k < |its[i].offerings| && requests != []
    requires WasAsked(requests, its[i], its[i].offerings[k], subnetID)
    requires forall m: nat :: m < |requests| - 1 ==> TurnedDown(replies(m))
    requires StillOpen(its, compatible, subnetID, before, now, replies, requests, i, k)
    ensures NotAfter(requests[|requests| - 1], its[i].offerings[k].price, its[i].offerings[k].zone, its[i].name)
  {
    var d :| d in requests && StandsFor(d, its[i], its[i].offerings[k], subnetID);
    var m: nat :| m < |requests| && requests[m] == d;
    assert m < |requests| - 1 ==> TurnedDown(replies(m));
  }

  lemma FreeMeansOpen(its: seq<InstanceType>, subnetID: string, entries: OfferingCache.Entries, now: int,
                      i: int, k: int)
    requires 0 <= i < |its| && 0 <= k < |its[i].offerings|
    ensures IsFree(entries, its[i], its[i].offerings[k], now) <==> Open(entries, At(its, subnetID, i, k), now)
  {
  }

  /** What a caller asks for. `compatible` stands for the claim's scheduling requirements narrowed to
      on-demand, `allowedTypes` for its instance-type requirement (empty: any). */
  datatype LaunchRequest = LaunchRequest(
    imageResolved: bool,
    onDemandAllowed: bool,
    allowedTypes: set<string>,
    compatible: Offering -> bool,
    specValid: bool,
    statusSubnets: seq<string>,
    its: seq<InstanceType>)

  predicate TypeAllowed(req: LaunchRequest, it: InstanceType) {
    && (req.allowedTypes == {} || it.name in req.allowedTypes)
    && exists k :: 0 <= k < |it.offerings| && req.compatible(it.offerings[k])
  }

  function AllowedTypes(req: LaunchRequest, its: seq<InstanceType>): seq<InstanceType> {
    if its == [] then [] else
    var n := |its| - 1;
    AllowedTypes(req, its[..n]) + if TypeAllowed(req, its[n]) then [its[n]] else []
  }

  /** The types kept are those of the listing, in its order, that the claim allows by name (any, when it
      names none) and that have a matching offering; `from` says where each stands. */
  lemma {:induction false} AllowedTypesMeaning(req: LaunchRequest, its: seq<InstanceType>) returns (from: seq<int>)
    ensures |from| == |AllowedTypes(req, its)|
    ensures forall m :: 0 <= m < |from| ==> 0 <= from[m] < |its| && AllowedTypes(req, its)[m] == its[from[m]]
    ensures forall m, n :: 0 <= m < n < |from| ==> from[m] < from[n]
    ensures forall i :: 0 <= i < |its| ==>
              (i in from <==>
                && (|req.allowedTypes| == 0 || its[i].name in req.allowedTypes)
                && exists o :: o in its[i].offerings && req.compatible(o))
  {
    from := [];
    if its != [] {
      var n := |its| - 1;
      from := AllowedTypesMeaning(req, its[..n]);
      if TypeAllowed(req, its[n]) {
        from := from + [n];
      }
    }
  }

  /** The request gets as far as selecting a subnet. */
  predicate Admitted(clusterID: string, req: LaunchRequest) {
    clusterID != "" && req.imageResolved && req.onDemandAllowed && AllowedTypes(req, req.its) != []
  }

  /** What a reply that ends the launch makes of it. */
  predicate Ends(r: Result<Instance, Failure>, c: Candidate, reply: Reply) {
    && (r.Ok? <==> reply.outcome.Created? && reply.outcome.uid != "")
    && (r.Ok? ==> r.value == Instance(reply.outcome.uid, reply.outcome.serverID, c.name, c.zone))
    && (r.Err? ==> r.error.LaunchFailed?)
  }

  class InstanceProvider {
    const clusterID: string
    const subnets: SubnetProvider.Provider
    const cache: OfferingCache.Cache

    constructor (clusterID: string, subnets: SubnetProvider.Provider, cache: OfferingCache.Cache)
      ensures this.clusterID == clusterID && this.subnets == subnets && this.cache == cache
    {
      this.clusterID, this.subnets, this.cache := clusterID, subnets, cache;
    }

    method FilterUnavailable(candidates: seq<Candidate>, now: int) returns (open: seq<Candidate>)
      ensures open == Unsuppressed(cache.entries, candidates, now)
      ensures forall c :: c in open <==> c in candidates && Open(cache.entries, c, now)
      ensures SortedBy(Before, candidates) ==> SortedBy(Before, open)
      ensures DistinctKeys(candidates) ==> DistinctKeys(open)
    {
      open := [];
      for i := 0 to |candidates|
        invariant open == Unsuppressed(cache.entries, candidates[..i], now)
      {
        var c := candidates[i];
        assert candidates[..i + 1][..i] == candidates[..i];
        var unavailable := cache.IsUnavailable(c.capacityType, c.name, c.zone, now);
        if !unavailable {
          open := open + [c];
        }
      }
      assert candidates[..|candidates|] == candidates;
      UnsuppressedMembers(cache.entries, candidates, now);
      if SortedBy(Before, candidates) {
        UnsuppressedStaysSorted(cache.entries, candidates, now);
      }
      if DistinctKeys(candidates) {
        UnsuppressedStaysDistinct(cache.entries, candidates, now);
      }
    }

    /** What one reply leads to: `None` when the next candidate is to be tried. */
    method Settle(c: Candidate, reply: Reply) returns (end: Option<Result<Instance, Failure>>)
      modifies cache
      ensures end == None <==> MovesOn(reply.outcome)
      ensures cache.entries ==
                if end == None then OfferingCache.Mark(old(cache.entries), CacheKey(c), cache.ttl, reply.at)
                else old(cache.entries)
      ensures end.Some? ==> Ends(end.value, c, reply)
    {
      match reply.outcome
      case Refused(error) =>
        if IsInsufficientCapacity(error) {
          cache.MarkUnavailable(c.capacityType, c.name, c.zone, reply.at);
          return None;
        }
        if IsUnsupportedNetwork(error) {
          cache.MarkUnavailable(c.capacityType, c.name, c.zone, reply.at);
          return None;
        }
        return Some(Err(LaunchFailed(error.message)));
      case Created(uid, serverID) =>
        if uid == "" {
          return Some(Err(LaunchFailed("response metadata.uid is empty")));
        }
        return Some(Ok(Instance(uid, serverID, c.name, c.zone)));
    }

    /** The fallback loop: how it ended, if it did before its end, after how many CreateNode calls. */
    method TryEach(open: seq<Candidate>, specValid: bool, replies: nat -> Reply)
      returns (end: Option<Result<Instance, Failure>>, n: nat)
      modifies cache
      ensures n <= |open| && AllRefused(replies, if end.Some? then n - 1 else n)
      ensures cache.entries == MarkedAll(old(cache.entries), cache.ttl, open, replies,
                                         if end.Some? && 0 < n then n - 1 else n)
      ensures end.None? ==> n == |open| && (open == [] || specValid)
      ensures end.Some? && specValid ==>
                0 < n && !MovesOn(replies(n - 1).outcome) && Ends(end.value, open[n - 1], replies(n - 1))
      ensures end.Some? && !specValid ==> n == 0 && end.value.Err? && end.value.error.Misconfigured?
    {
      for i := 0 to |open|
        invariant 0 < i ==> specValid
        invariant AllRefused(replies, i)
        invariant cache.entries == MarkedAll(old(cache.entries), cache.ttl, open, replies, i)
      {
        if !specValid {
          return Some(Err(Misconfigured("invalid kubelet reservation"))), i;
        }
        end := Settle(open[i], replies(i));
        if end.Some? {
          return end, i + 1;
        }
      }
      return None, |open|;
    }

    /** The launch over the open candidates. `requests` is the log of CreateNode calls. */
    method TryInOrder(open: seq<Candidate>, specValid: bool, replies: nat -> Reply)
      returns (r: Result<Instance, Failure>, requests: seq<Candidate>)
      modifies cache
      ensures |requests| <= |open| && requests == open[..|requests|]
      ensures r.Ok? ==> Succeeds(r.value, requests, replies)
      ensures requests != [] && replies(|requests| - 1).outcome.Created? ==>
                (r.Ok? <==> replies(|requests| - 1).outcome.uid != "")
      ensures AllRefused(replies, |requests| - 1)
      ensures cache.entries == MarkedAll(old(cache.entries), cache.ttl, open, replies, RefusedCount(requests, replies))
      ensures r.Err? && r.error.InsufficientCapacity? <==>
              requests == open && open != [] && EndedShort(requests, replies)
      ensures specValid && requests != open ==> requests != [] && !MovesOn(replies(|requests| - 1).outcome)
      ensures !specValid ==> requests == []
    {
      var end, n := TryEach(open, specValid, replies);
      requests := open[..n];
      if end.Some? {
        return end.value, requests;
      }
      assert requests == open && RefusedCount(requests, replies) == |open|;
      if open != [] && IsInsufficientCapacity(replies(|open| - 1).outcome.error) {
        return Err(InsufficientCapacity("CreateNode failed for all candidates")), requests;
      }
      return Err(LaunchFailed("CreateNode failed for all candidates")), requests;
    }

    /** One launch. The reservation taken from the subnet ledger is given back on every exit. */
    method Create(req: LaunchRequest, selectAt: int, filterAt: int, replies: nat -> Reply, releaseAt: int)
      returns (r: Result<Instance, Failure>, requests: seq<Candidate>, ghost subnetID: string, ghost reserved: int)
      modifies subnets, cache
      ensures !Admitted(clusterID, req) || subnetID == "" ==>
                && r.Err? && requests == []
                && subnets.State() == old(subnets.State()) && cache.entries == old(cache.entries)
      ensures Admitted(clusterID, req) ==>
                subnetID == SubnetLedger.Pick(old(subnets.State()), req.statusSubnets, selectAt)
      ensures Admitted(clusterID, req) && subnetID != "" ==>
                && SubnetLedger.IsReservation(AllowedTypes(req, req.its), ON_DEMAND, reserved)
                && SubnetLedger.LargestLeanest(AllowedTypes(req, req.its), "on-demand", reserved)
                && subnets.State() == SubnetLedger.Release(
                     SubnetLedger.Reserve(old(subnets.State()), subnetID, reserved, selectAt),
                     subnetID, reserved, releaseAt)
      ensures Admitted(clusterID, req) && subnetID != "" ==>
                Attempted(AllowedTypes(req, req.its), req.compatible, subnetID, filterAt, cache.ttl,
                          old(cache.entries), cache.entries, replies, r, requests)
      ensures Admitted(clusterID, req) && subnetID != "" ==>
                && AskedCheapest(AllowedTypes(req, req.its), req.compatible, subnetID, old(cache.entries), filterAt,
                                 requests)
                && EndsAs(AllowedTypes(req, req.its), req.compatible, subnetID, filterAt, old(cache.entries), replies,
                          r, requests)
                && MarksTurnedDown(old(cache.entries), cache.entries, cache.ttl, requests, replies)
      ensures !Admitted(clusterID, req) ==>
                (r.error.InsufficientCapacity? <==> clusterID != "" && req.imageResolved && req.onDemandAllowed)
    {
      requests, subnetID, reserved := [], "", 0;
      if clusterID == "" {
        return Err(Misconfigured("CCE clusterID is empty")), [], "", 0;
      }
      if !req.imageResolved {
        return Err(Misconfigured("image not resolved")), [], "", 0;
      }
      if !req.onDemandAllowed {
        return Err(Misconfigured("only on-demand is supported")), [], "", 0;
      }
      var its := CompatibleTypes(req);
      if its == [] {
        return Err(InsufficientCapacity("no compatible instance types for requirements")), [], "", 0;
      }
      var selection := subnets.SelectForLaunch(req.statusSubnets, its, ON_DEMAND, selectAt);
      if selection.Err? {
        return Err(LaunchFailed(selection.error)), [], "", 0;
      }
      var subnet := selection.value;
      subnetID, reserved := subnet.id, subnet.reserved;
      r, requests := CreateIn(req, its, subnet.id, filterAt, replies);
      AttemptMeaning(its, req.compatible, subnetID, filterAt, cache.ttl, old(cache.entries), cache.entries, replies,
                     r, requests);
      subnets.ReleaseInflightIPs(subnet, releaseAt);
    }

    method CompatibleTypes(req: LaunchRequest) returns (its: seq<InstanceType>)
      ensures its == AllowedTypes(req, req.its)
    {
      its := [];
      for i := 0 to |req.its|
        invariant its == AllowedTypes(req, req.its[..i])
      {
        assert req.its[..i + 1][..i] == req.its[..i];
        if TypeAllowed(req, req.its[i]) {
          its := its + [req.its[i]];
        }
      }
      assert req.its[..|req.its|] == req.its;
    }

    /** The part of `Create` between selecting the subnet and the deferred release. */
    method CreateIn(req: LaunchRequest, its: seq<InstanceType>, subnetID: string, filterAt: int, replies: nat -> Reply)
      returns (r: Result<Instance, Failure>, requests: seq<Candidate>)
      requires subnetID != ""
      modifies cache
      ensures Attempted(its, req.compatible, subnetID, filterAt, cache.ttl,
                        old(cache.entries), cache.entries, replies, r, requests)
    {
      var candidates := BuildCreateCandidates(its, req.compatible, subnetID);
      if candidates == [] {
        AskedPrefix(its, req.compatible, subnetID, cache.entries, filterAt, [], 0);
        return Err(InsufficientCapacity("no compatible candidates")), [];
      }
      var open := FilterUnavailable(candidates, filterAt);
      if open == [] {
        AskedPrefix(its, req.compatible, subnetID, cache.entries, filterAt, [], 0);
        return Err(InsufficientCapacity("all compatible offerings are temporarily unavailable")), [];
      }
      r, requests := TryInOrder(open, req.specValid, replies);
      MarkedPrefix(old(cache.entries), cache.ttl, open, replies, |requests|, RefusedCount(requests, replies));
      AskedPrefix(its, req.compatible, subnetID, old(cache.entries), filterAt, open, |requests|);
    }
  }

  /** A prefix of the sorted open candidates asks in order, and for all of them only when it is whole. */
  lemma AskedPrefix(its: seq<InstanceType>, compatible: Offering -> bool, subnetID: string,
                    entries: OfferingCache.Entries, now: int, open: seq<Candidate>, m: nat)
    requires m <= |open| && SortedBy(Before, open)
    requires forall c :: c in open <==> IsOpen(its, compatible, subnetID, entries, now, c)
    requires DistinctKeys(open)
    ensures AskedInOrder(its, compatible, subnetID, entries, now, open[..m])
    ensures AskedAll(its, compatible, subnetID, entries, now, open[..m]) <==> open[..m] == open
  {
    NothingSkipped(open, m);
    AllAsked(open, m);
  }

  lemma {:induction false} MarkedPrefix(entries: OfferingCache.Entries, ttl: int, cs: seq<Candidate>,
                                        replies: nat -> Reply, m: nat, n: nat)
    requires n <= m <= |cs|
    ensures MarkedAll(entries, ttl, cs[..m], replies, n) == MarkedAll(entries, ttl, cs, replies, n)
  {
    if 0 < n {
      MarkedPrefix(entries, ttl, cs, replies, m, n - 1);
    }
  }

  lemma NothingSkipped(open: seq<Candidate>, m: nat)
    requires SortedBy(Before, open) && m <= |open|
    ensures 0 < m ==> forall c :: c in open ==> c in open[..m] || !Before(c, open[m - 1])
  {
  }

  lemma AllAsked(open: seq<Candidate>, m: nat)
    requires m <= |open| && DistinctKeys(open)
    ensures (forall c :: c in open ==> c in open[..m]) <==> m == |open|
  {
    if m < |open| {
      assert open[m] in open && open[m] !in open[..m];
    } else {
      assert open[..m] == open;
    }
  }

  /** Each refused offering stays suppressed for one TTL from its last refusal (for ever when the TTL is
      not positive), and no other entry of the cache changes. */
  lemma {:induction false} RefusedAreMarked(entries: OfferingCache.Entries, ttl: int, cs: seq<Candidate>,
                                            replies: nat -> Reply, n: nat)
    requires n <= |cs|
    ensures var marked := MarkedAll(entries, ttl, cs, replies, n);
            && (forall i, t :: 0 <= i < n && (forall j :: i < j < n ==> CacheKey(cs[j]) != CacheKey(cs[i])) ==>
                  (OfferingCache.Suppressed(marked, CacheKey(cs[i]), t) <==> ttl <= 0 || t <= replies(i).at + ttl))
            && (forall key :: (forall i :: 0 <= i < n ==> CacheKey(cs[i]) != key) ==>
                  (key in marked <==> key in entries) && (key in marked ==> marked[key] == entries[key]))
  {
    if 0 < n {
      RefusedAreMarked(entries, ttl, cs, replies, n - 1);
      var before, marked := MarkedAll(entries, ttl, cs, replies, n - 1), MarkedAll(entries, ttl, cs, replies, n);
      forall i, t | 0 <= i < n && (forall j :: i < j < n ==> CacheKey(cs[j]) != CacheKey(cs[i]))
        ensures OfferingCache.Suppressed(marked, CacheKey(cs[i]), t) <==> ttl <= 0 || t <= replies(i).at + ttl
      {
        if i < n - 1 {
          assert CacheKey(cs[n - 1]) != CacheKey(cs[i]);
          assert OfferingCache.Suppressed(before, CacheKey(cs[i]), t) <==> ttl <= 0 || t <= replies(i).at + ttl;
        }
      }
    }
  }
}
