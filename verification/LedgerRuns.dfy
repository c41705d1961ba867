/** Runs of any number of concurrent launches over one ledger: what every interleaving keeps. */
module LedgerRuns {
  import opened Base
  import opened Ordering
  import opened SubnetLedger
  import opened SubnetProvider

  /** A handle given out by a selection. `current` until the next refresh of its subnet. */
  datatype Reservation = Reservation(subnet: string, reserved: int, current: bool)

  /** `credited` sums, per subnet, the pre-refresh reservations given back since its last refresh. */
  datatype World = World(ledger: Ledger, now: int, reservations: seq<Reservation>, credited: map<string, int>)

  /** The lock-held sections, each atomic. `reserve` and `reply` are whatever the cloud makes them. */
  datatype Step =
    | Tick(elapsed: nat)
    | ListSubnets(terms: seq<SelectorTerm>, hash: string, reply: Result<seq<VpcSubnet>, string>)
    | Select(ids: seq<string>, reserve: nat)
    | GiveBack(handle: nat)

  function Credit(w: World, id: string): int {
    if id in w.credited then w.credited[id] else 0
  }

  function Outdate(rs: seq<Reservation>, ids: set<string>): seq<Reservation> {
    seq(|rs|, i requires 0 <= i < |rs| => rs[i].(current := rs[i].current && rs[i].subnet !in ids))
  }

  function Apply(w: World, step: Step): World {
    match step
    case Tick(elapsed) => w.(now := w.now + elapsed)
    case ListSubnets(terms, hash, reply) =>
      if Refreshes(w.ledger, terms, hash, w.now, reply) then
        var matched := Matched(reply.value, terms);
        w.(ledger := SubnetLedger.Refresh(w.ledger, matched, hash, w.now),
           reservations := Outdate(w.reservations, matched.Keys),
           credited := w.credited - matched.Keys)
      else w
    case Select(ids, reserve) =>
      var id := Pick(w.ledger, ids, w.now);
      if id == "" then w
      else w.(ledger := Reserve(w.ledger, id, reserve, w.now),
              reservations := w.reservations + [Reservation(id, reserve, true)])
    case GiveBack(i) =>
      if i >= |w.reservations| then w else
      var r := w.reservations[i];
      w.(ledger := SubnetLedger.Release(w.ledger, r.subnet, r.reserved, w.now),
         reservations := w.reservations[i := r.(reserved := 0)],
         credited := if r.current then w.credited
                     else w.credited[r.subnet := Credit(w, r.subnet) + r.reserved])
  }

  function Run(w: World, steps: seq<Step>): World {
    if steps == [] then w else Apply(Run(w, steps[..|steps| - 1]), steps[|steps| - 1])
  }

  function Start(listTTL: int, ipTTL: int, now: int): World {
    World(Ledger(listTTL, ipTTL, map[], map[], map[]), now, [], map[])
  }

  /** The `int32` arithmetic of the step is exact. */
  predicate StepFits(w: World, step: Step) {
    match step
    case Select(ids, reserve) => Fits32(Effective(w.ledger, Pick(w.ledger, ids, w.now), w.now) - reserve)
    case GiveBack(i) =>
      i < |w.reservations| && w.reservations[i].subnet in w.ledger.inflight ==>
        Fits32(w.ledger.inflight[w.reservations[i].subnet] + w.reservations[i].reserved)
    case _ => true
  }

  predicate RunFits(w: World, steps: seq<Step>) {
    steps == [] ||
    (RunFits(w, steps[..|steps| - 1]) && StepFits(Run(w, steps[..|steps| - 1]), steps[|steps| - 1]))
  }

  // ---------- accounting ----------

  /** Reservations of the subnet made since its last refresh and not given back. */
  function Outstanding(rs: seq<Reservation>, id: string): int {
    if rs == [] then 0 else
    var r := rs[|rs| - 1];
    Outstanding(rs[..|rs| - 1], id) + if r.subnet == id && r.current then r.reserved else 0
  }

  function Baseline(w: World, id: string): Option<int> {
    Lookup(w.ledger.baselines, id, w.now)
  }

  function Free(w: World, id: string): int {
    Effective(w.ledger, id, w.now)
  }

  ghost predicate Bounded(w: World, id: string, b: int) {
    var out := Outstanding(w.reservations, id);
    && b - out <= Free(w, id) <= b
    && Free(w, id) <= b - out + Credit(w, id)
    && (id in w.ledger.inflight ==> w.ledger.inflight[id] < b)
  }

  /** Whatever is outstanding is tracked, unless a pre-refresh reservation was given back since. */
  ghost predicate Tracked(w: World, id: string) {
    Credit(w, id) == 0 && 0 < Outstanding(w.reservations, id) ==> id in w.ledger.inflight
  }

  ghost predicate Inv(w: World) {
    && "" !in w.ledger.inflight
    && (forall i :: 0 <= i < |w.reservations| ==> 0 <= w.reservations[i].reserved && w.reservations[i].subnet != "")
    && (forall id :: id in w.credited ==> 0 <= w.credited[id])
    && (forall id :: Baseline(w, id).Some? ==> Bounded(w, id, Baseline(w, id).value))
    && (forall id :: Tracked(w, id))
  }

  lemma {:induction false} OutstandingNonNegative(rs: seq<Reservation>, id: string)
    requires forall i :: 0 <= i < |rs| ==> 0 <= rs[i].reserved
    ensures 0 <= Outstanding(rs, id)
  {
    if rs != [] {
      OutstandingNonNegative(rs[..|rs| - 1], id);
    }
  }

  lemma {:induction false} OutstandingAfterGiveBack(rs: seq<Reservation>, i: nat, id: string)
    requires i < |rs|
    ensures Outstanding(rs[i := rs[i].(reserved := 0)], id)
         == Outstanding(rs, id) - if rs[i].subnet == id && rs[i].current then rs[i].reserved else 0
  {
    var n := |rs| - 1;
    var rs' := rs[i := rs[i].(reserved := 0)];
    if i < n {
      OutstandingAfterGiveBack(rs[..n], i, id);
      assert rs'[..n] == rs[..n][i := rs[i].(reserved := 0)];
    } else {
      assert rs'[..n] == rs[..n];
    }
  }

  lemma {:induction false} OutstandingAfterRefresh(rs: seq<Reservation>, ids: set<string>, id: string)
    ensures Outstanding(Outdate(rs, ids), id) == if id in ids then 0 else Outstanding(rs, id)
  {
    if rs != [] {
      var n := |rs| - 1;
      OutstandingAfterRefresh(rs[..n], ids, id);
      assert Outdate(rs, ids)[..n] == Outdate(rs[..n], ids);
    }
  }

  // ---------- every step keeps the accounting ----------

  lemma TickKeeps(w: World, elapsed: nat)
    requires Inv(w)
    ensures Inv(Apply(w, Tick(elapsed)))
  {
    var w' := Apply(w, Tick(elapsed));
    forall id | Baseline(w', id).Some? ensures Bounded(w', id, Baseline(w', id).value) {
      assert Baseline(w, id) == Baseline(w', id);
    }
    forall id ensures Tracked(w', id) {
      assert Tracked(w, id);
    }
  }

  lemma RefreshKeeps(w: World, terms: seq<SelectorTerm>, hash: string, reply: Result<seq<VpcSubnet>, string>)
    requires Inv(w)
    ensures Inv(Apply(w, ListSubnets(terms, hash, reply)))
  {
    var w' := Apply(w, ListSubnets(terms, hash, reply));
    if Refreshes(w.ledger, terms, hash, w.now, reply) {
      var ids := Matched(reply.value, terms).Keys;
      forall id
        ensures Tracked(w', id)
        ensures Baseline(w', id).Some? ==> Bounded(w', id, Baseline(w', id).value)
      {
        OutstandingAfterRefresh(w.reservations, ids, id);
        assert Tracked(w, id);
        if id !in ids {
          assert Baseline(w, id) == Baseline(w', id);
        }
      }
    }
  }

  lemma SelectKeeps(w: World, ids: seq<string>, reserve: nat)
    requires Inv(w) && StepFits(w, Select(ids, reserve))
    ensures Inv(Apply(w, Select(ids, reserve)))
  {
    var w' := Apply(w, Select(ids, reserve));
    var chosen := Pick(w.ledger, ids, w.now);
    if chosen != "" {
      assert w'.reservations[..|w.reservations|] == w.reservations;
      forall id
        ensures Tracked(w', id)
        ensures Baseline(w', id).Some? ==> Bounded(w', id, Baseline(w', id).value)
      {
        assert Tracked(w, id);
        assert Baseline(w, id).Some? ==> Bounded(w, id, Baseline(w, id).value);
      }
    }
  }

  lemma GiveBackTracks(w: World, i: nat, id: string)
    requires Inv(w) && StepFits(w, GiveBack(i)) && i < |w.reservations|
    ensures Tracked(Apply(w, GiveBack(i)), id)
  {
    assert Tracked(w, id);
    assert Baseline(w, id).Some? ==> Bounded(w, id, Baseline(w, id).value);
    OutstandingAfterGiveBack(w.reservations, i, id);
  }

  lemma GiveBackBounds(w: World, i: nat, id: string)
    requires Inv(w) && StepFits(w, GiveBack(i)) && i < |w.reservations| && Baseline(w, id).Some?
    ensures Bounded(Apply(w, GiveBack(i)), id, Baseline(w, id).value)
  {
    assert Bounded(w, id, Baseline(w, id).value);
    OutstandingAfterGiveBack(w.reservations, i, id);
    OutstandingNonNegative(w.reservations[i := w.reservations[i].(reserved := 0)], id);
  }

  lemma GiveBackKeeps(w: World, i: nat)
    requires Inv(w) && StepFits(w, GiveBack(i))
    ensures Inv(Apply(w, GiveBack(i)))
  {
    var w' := Apply(w, GiveBack(i));
    if i < |w.reservations| {
      forall id
        ensures Tracked(w', id)
        ensures Baseline(w', id).Some? ==> Bounded(w', id, Baseline(w', id).value)
      {
        GiveBackTracks(w, i, id);
        if Baseline(w, id).Some? {
          GiveBackBounds(w, i, id);
        }
      }
    }
  }

  lemma StepKeeps(w: World, step: Step)
    requires Inv(w) && StepFits(w, step)
    ensures Inv(Apply(w, step))
  {
    match step
    case Tick(elapsed) => TickKeeps(w, elapsed);
    case ListSubnets(terms, hash, reply) => RefreshKeeps(w, terms, hash, reply);
    case Select(ids, reserve) => SelectKeeps(w, ids, reserve);
    case GiveBack(i) => GiveBackKeeps(w, i);
  }

  lemma {:induction false} InvAlways(listTTL: int, ipTTL: int, now: int, steps: seq<Step>)
    requires RunFits(Start(listTTL, ipTTL, now), steps)
    ensures Inv(Run(Start(listTTL, ipTTL, now), steps))
  {
    if steps != [] {
      InvAlways(listTTL, ipTTL, now, steps[..|steps| - 1]);
      StepKeeps(Run(Start(listTTL, ipTTL, now), steps[..|steps| - 1]), steps[|steps| - 1]);
    }
  }

  // ---------- results ----------

  /** In every run, while a subnet's baseline is cached, its count is never above the baseline nor
      below the baseline minus what launches made since the last refresh still hold; reservations
      released after a refresh they preceded can only bring it closer to the baseline. */
  lemma {:induction false} CountStaysBounded(listTTL: int, ipTTL: int, now: int, steps: seq<Step>, id: string)
    requires RunFits(Start(listTTL, ipTTL, now), steps)
    ensures var w := Run(Start(listTTL, ipTTL, now), steps);
            Baseline(w, id).Some? ==>
              var b, out := Baseline(w, id).value, Outstanding(w.reservations, id);
              && b - out <= Free(w, id) <= b
              && Free(w, id) <= b - out + Credit(w, id)
              && (id in w.ledger.inflight ==> w.ledger.inflight[id] < b)
  {
    InvAlways(listTTL, ipTTL, now, steps);
  }

  /** Where no reservation older than the last refresh was given back since, the count is exact:
      tracked precisely when something is outstanding. */
  lemma {:induction false} CountIsExact(listTTL: int, ipTTL: int, now: int, steps: seq<Step>, id: string)
    requires RunFits(Start(listTTL, ipTTL, now), steps)
    ensures var w := Run(Start(listTTL, ipTTL, now), steps);
            Baseline(w, id).Some? && Credit(w, id) == 0 ==>
              && Free(w, id) == Baseline(w, id).value - Outstanding(w.reservations, id)
              && (id in w.ledger.inflight <==> Outstanding(w.reservations, id) != 0)
  {
    InvAlways(listTTL, ipTTL, now, steps);
    var w := Run(Start(listTTL, ipTTL, now), steps);
    OutstandingNonNegative(w.reservations, id);
  }

  /** Once every launch has given its reservation back, no cached subnet is tracked any more,
      whatever refreshes happened in between and in whatever order the launches finished. */
  lemma QuietLedgerTracksNothing(listTTL: int, ipTTL: int, now: int, steps: seq<Step>, id: string)
    requires RunFits(Start(listTTL, ipTTL, now), steps)
    requires forall i :: 0 <= i < |Run(Start(listTTL, ipTTL, now), steps).reservations| ==>
               Run(Start(listTTL, ipTTL, now), steps).reservations[i].reserved == 0
    ensures var w := Run(Start(listTTL, ipTTL, now), steps);
            Baseline(w, id).Some? ==> id !in w.ledger.inflight && Free(w, id) == Baseline(w, id).value
  {
    InvAlways(listTTL, ipTTL, now, steps);
    NothingOutstanding(Run(Start(listTTL, ipTTL, now), steps).reservations, id);
  }

  lemma {:induction false} NothingOutstanding(rs: seq<Reservation>, id: string)
    requires forall i :: 0 <= i < |rs| ==> rs[i].reserved == 0
    ensures Outstanding(rs, id) == 0
  {
    if rs != [] {
      NothingOutstanding(rs[..|rs| - 1], id);
    }
  }

  lemma RunSnoc(w: World, steps: seq<Step>, step: Step)
    ensures Run(w, steps + [step]) == Apply(Run(w, steps), step)
    ensures RunFits(w, steps + [step]) <==> RunFits(w, steps) && StepFits(Run(w, steps), step)
  {
  }

  /** In every run: a release with nothing older given back since the last refresh forgets the subnet
      exactly when its baseline is cached at that moment and nothing else is outstanding. */
  lemma {:induction false} ReleaseForgetsIff(listTTL: int, ipTTL: int, now: int, steps: seq<Step>, i: nat)
    requires RunFits(Start(listTTL, ipTTL, now), steps + [GiveBack(i)])
    requires var w := Run(Start(listTTL, ipTTL, now), steps);
             && i < |w.reservations| && 0 < w.reservations[i].reserved
             && Credit(w, w.reservations[i].subnet) == 0
             && 0 < Outstanding(w.reservations, w.reservations[i].subnet)
    ensures var w := Run(Start(listTTL, ipTTL, now), steps);
            var w' := Run(Start(listTTL, ipTTL, now), steps + [GiveBack(i)]);
            var r := w.reservations[i];
            r.subnet !in w'.ledger.inflight <==>
              Baseline(w, r.subnet).Some? && Outstanding(w.reservations, r.subnet) <= r.reserved
  {
    RunSnoc(Start(listTTL, ipTTL, now), steps, GiveBack(i));
    InvAlways(listTTL, ipTTL, now, steps);
    var w := Run(Start(listTTL, ipTTL, now), steps);
    var id := w.reservations[i].subnet;
    assert Tracked(w, id);
    assert Baseline(w, id).Some? ==> Bounded(w, id, Baseline(w, id).value);
  }

  lemma RunOfTwo(w: World, first: Step, second: Step)
    ensures Run(w, [first, second]) == Apply(Apply(w, first), second)
    ensures RunFits(w, [first, second]) <==> StepFits(w, first) && StepFits(Apply(w, first), second)
  {
    RunSnoc(w, [], first);
    RunSnoc(w, [first], second);
    assert [] + [first] == [first] && [first] + [second] == [first, second];
  }

  /** A launch in a subnet whose baseline is not cached leaves its entry behind. */
  lemma {:induction false} UncachedBaselineLeavesEntry()
    ensures var w := Run(Start(60, 300, 0), [Select(["a"], 4), GiveBack(0)]);
            && RunFits(Start(60, 300, 0), [Select(["a"], 4), GiveBack(0)])
            && w.reservations == [Reservation("a", 0, true)] && "a" in w.ledger.inflight
  {
    var w0 := Start(60, 300, 0);
    PickOne(w0.ledger, "a", 0);
    RunOfTwo(w0, Select(["a"], 4), GiveBack(0));
  }

  /** Giving the same reservation back twice is the same as once. */
  lemma SecondReleaseIsIdle(w: World, i: nat)
    ensures Apply(Apply(w, GiveBack(i)), GiveBack(i)).ledger == Apply(w, GiveBack(i)).ledger
    ensures Apply(Apply(w, GiveBack(i)), GiveBack(i)).reservations == Apply(w, GiveBack(i)).reservations
  {
  }

  lemma ReleaseTouchesOneEntry(l: Ledger, id: string, reserved: int, now: int)
    ensures var l' := SubnetLedger.Release(l, id, reserved, now);
            && l' == l.(inflight := l'.inflight)
            && (forall x :: x != id ==> (x in l'.inflight <==> x in l.inflight))
            && (forall x :: x != id && x in l.inflight ==> l'.inflight[x] == l.inflight[x])
            && (id in l'.inflight ==> id in l.inflight)
  {
  }

  lemma ReleasesOfOneSubnetCommute(l: Ledger, id: string, r: nat, q: nat, now: int)
    requires id in l.inflight ==> Fits32(l.inflight[id] + r) && Fits32(l.inflight[id] + q)
    requires id in l.inflight ==> Fits32(l.inflight[id] + r + q)
    ensures SubnetLedger.Release(SubnetLedger.Release(l, id, r, now), id, q, now)
         == SubnetLedger.Release(SubnetLedger.Release(l, id, q, now), id, r, now)
  {
  }

  lemma ReleasesOfTwoSubnetsCommute(l: Ledger, id: string, r: int, other: string, q: int, now: int)
    requires id != other
    ensures SubnetLedger.Release(SubnetLedger.Release(l, id, r, now), other, q, now)
         == SubnetLedger.Release(SubnetLedger.Release(l, other, q, now), id, r, now)
  {
    var li := SubnetLedger.Release(l, id, r, now);
    var lo := SubnetLedger.Release(l, other, q, now);
    ReleaseTouchesOneEntry(l, id, r, now);
    ReleaseTouchesOneEntry(l, other, q, now);
    ReleaseTouchesOneEntry(li, other, q, now);
    ReleaseTouchesOneEntry(lo, id, r, now);
    assert SubnetLedger.Release(li, other, q, now).inflight == SubnetLedger.Release(lo, id, r, now).inflight;
  }

  /** Two launches that finish in either order leave the same ledger. */
  lemma ReleasesCommute(w: World, i: nat, j: nat)
    requires i < |w.reservations| && j < |w.reservations| && i != j
    requires 0 <= w.reservations[i].reserved && 0 <= w.reservations[j].reserved
    requires var r, q := w.reservations[i], w.reservations[j];
             r.subnet in w.ledger.inflight ==>
               && Fits32(w.ledger.inflight[r.subnet])
               && Fits32(w.ledger.inflight[r.subnet] + r.reserved + q.reserved)
    ensures Apply(Apply(w, GiveBack(i)), GiveBack(j)).ledger == Apply(Apply(w, GiveBack(j)), GiveBack(i)).ledger
  {
    var r, q, l := w.reservations[i], w.reservations[j], w.ledger;
    if r.subnet == q.subnet {
      ReleasesOfOneSubnetCommute(l, r.subnet, r.reserved, q.reserved, w.now);
    } else {
      ReleasesOfTwoSubnetsCommute(l, r.subnet, r.reserved, q.subnet, q.reserved, w.now);
    }
  }

  /** A selection followed at once by its release restores the ledger exactly when the entry was
      tracked below its baseline, or the baseline is cached, or nothing was reserved. */
  lemma ReleaseUndoesReserve(l: Ledger, id: string, reserve: nat, now: int)
    requires id != "" && Fits32(Effective(l, id, now) - reserve) && Fits32(Effective(l, id, now))
    requires Lookup(l.baselines, id, now).Some? && id in l.inflight ==>
               l.inflight[id] < Lookup(l.baselines, id, now).value
    ensures SubnetLedger.Release(Reserve(l, id, reserve, now), id, reserve, now) == l
       <==> reserve == 0 || id in l.inflight || Lookup(l.baselines, id, now).Some?
  {
  }

  /** With exact accounting, a selection keeps it exact if and only if its subtraction does not wrap. */
  lemma SelectExactIffFits(w: World, ids: seq<string>, reserve: nat)
    requires Inv(w) && Pick(w.ledger, ids, w.now) != "" && 0 < reserve
    requires Baseline(w, Pick(w.ledger, ids, w.now)).Some? && Credit(w, Pick(w.ledger, ids, w.now)) == 0
    ensures var id := Pick(w.ledger, ids, w.now);
            var w' := Apply(w, Select(ids, reserve));
            Free(w', id) == Baseline(w', id).value - Outstanding(w'.reservations, id)
            <==> StepFits(w, Select(ids, reserve))
  {
  }

  // ---------- when the arithmetic fits ----------

  /** What all selections of the run reserve together. */
  function Requested(steps: seq<Step>): int {
    if steps == [] then 0 else
    var last := steps[|steps| - 1];
    Requested(steps[..|steps| - 1]) + if last.Select? then last.reserve else 0
  }

  /** Everything not given back, older reservations included. */
  function Held(rs: seq<Reservation>): int {
    if rs == [] then 0 else Held(rs[..|rs| - 1]) + rs[|rs| - 1].reserved
  }

  /** The counts the cloud reports are from 0 to `max`. */
  predicate CountsWithin(step: Step, max: int) {
    step.ListSubnets? && step.reply.Ok? ==>
      forall k :: 0 <= k < |step.reply.value| ==> 0 <= step.reply.value[k].available <= max
  }

  ghost predicate Ranged(w: World, max: int, requested: int) {
    && (forall i :: 0 <= i < |w.reservations| ==> 0 <= w.reservations[i].reserved)
    && (forall id :: id in w.ledger.baselines ==> 0 <= w.ledger.baselines[id].value <= max)
    && 0 <= Held(w.reservations) <= requested
    && (forall id :: id in w.ledger.inflight ==>
          -requested <= w.ledger.inflight[id] <= max + requested - Held(w.reservations))
  }

  lemma {:induction false} HeldAfterGiveBack(rs: seq<Reservation>, i: nat)
    requires i < |rs| && forall k :: 0 <= k < |rs| ==> 0 <= rs[k].reserved
    ensures Held(rs[i := rs[i].(reserved := 0)]) == Held(rs) - rs[i].reserved
    ensures rs[i].reserved <= Held(rs)
  {
    var n := |rs| - 1;
    var rs' := rs[i := rs[i].(reserved := 0)];
    HeldNonNegative(rs[..n]);
    if i < n {
      HeldAfterGiveBack(rs[..n], i);
      assert rs'[..n] == rs[..n][i := rs[i].(reserved := 0)];
    } else {
      assert rs'[..n] == rs[..n];
    }
  }

  lemma {:induction false} HeldNonNegative(rs: seq<Reservation>)
    requires forall k :: 0 <= k < |rs| ==> 0 <= rs[k].reserved
    ensures 0 <= Held(rs)
  {
    if rs != [] {
      HeldNonNegative(rs[..|rs| - 1]);
    }
  }

  lemma {:induction false} HeldAfterRefresh(rs: seq<Reservation>, ids: set<string>)
    ensures Held(Outdate(rs, ids)) == Held(rs)
  {
    if rs != [] {
      var n := |rs| - 1;
      HeldAfterRefresh(rs[..n], ids);
      assert Outdate(rs, ids)[..n] == Outdate(rs[..n], ids);
    }
  }

  lemma SelectFits(w: World, ids: seq<string>, reserve: nat, max: int, requested: int)
    requires Ranged(w, max, requested) && 0 <= max && max + requested + reserve <= MAX_INT32
    ensures StepFits(w, Select(ids, reserve))
    ensures Ranged(Apply(w, Select(ids, reserve)), max, requested + reserve)
  {
    var w' := Apply(w, Select(ids, reserve));
    var id := Pick(w.ledger, ids, w.now);
    assert -requested <= Effective(w.ledger, id, w.now) <= max + requested - Held(w.reservations);
    if id != "" {
      assert w'.reservations[..|w.reservations|] == w.reservations;
      assert Held(w'.reservations) == Held(w.reservations) + reserve;
    }
  }

  lemma GiveBackFits(w: World, i: nat, max: int, requested: int)
    requires Ranged(w, max, requested) && 0 <= max && max + requested <= MAX_INT32
    ensures StepFits(w, GiveBack(i))
    ensures Ranged(Apply(w, GiveBack(i)), max, requested)
  {
    if i < |w.reservations| {
      HeldAfterGiveBack(w.reservations, i);
      HeldNonNegative(w.reservations[i := w.reservations[i].(reserved := 0)]);
    }
  }

  lemma RefreshRanged(w: World, step: Step, max: int, requested: int)
    requires Ranged(w, max, requested) && step.ListSubnets? && CountsWithin(step, max)
    ensures Ranged(Apply(w, step), max, requested)
  {
    if Refreshes(w.ledger, step.terms, step.hash, w.now, step.reply) {
      var matched := Matched(step.reply.value, step.terms);
      MatchedOwnIDs(step.reply.value, step.terms);
      HeldAfterRefresh(w.reservations, matched.Keys);
      forall id | id in matched ensures 0 <= matched[id].available <= max {
        assert matched[id] in step.reply.value;
      }
    }
  }

  /** No `int32` operation wraps in a run whose reported counts, together with all it ever reserves,
      stay below 2 to the 31; every tracked count lies in that range. */
  lemma {:induction false} ModestRunsFit(listTTL: int, ipTTL: int, now: int, steps: seq<Step>, max: int)
    requires 0 <= max && max + Requested(steps) <= MAX_INT32
    requires forall k :: 0 <= k < |steps| ==> CountsWithin(steps[k], max)
    ensures RunFits(Start(listTTL, ipTTL, now), steps)
    ensures Ranged(Run(Start(listTTL, ipTTL, now), steps), max, Requested(steps))
  {
    if steps != [] {
      var front, last := steps[..|steps| - 1], steps[|steps| - 1];
      ModestRunsFit(listTTL, ipTTL, now, front, max);
      var w := Run(Start(listTTL, ipTTL, now), front);
      match last
      case Tick(elapsed) =>
      case ListSubnets(_, _, _) => RefreshRanged(w, last, max, Requested(front));
      case Select(ids, reserve) => SelectFits(w, ids, reserve, max, Requested(front));
      case GiveBack(i) => GiveBackFits(w, i, max, Requested(front));
    }
  }

  // ---------- which subnet a launch gets ----------

  lemma PickSnoc(l: Ledger, ids: seq<string>, last: string, now: int)
    ensures Pick(l, ids + [last], now) ==
              var held := Pick(l, ids, now);
              if held == "" || Effective(l, last, now) > Effective(l, held, now) then last else held
  {
    assert (ids + [last])[..|ids|] == ids;
  }

  lemma PickOne(l: Ledger, id: string, now: int)
    ensures Pick(l, [id], now) == id
  {
    PickSnoc(l, [], id, now);
    assert [] + [id] == [id];
  }

  lemma {:induction false} PickIsListed(l: Ledger, ids: seq<string>, now: int)
    ensures Pick(l, ids, now) == "" || Pick(l, ids, now) in ids
  {
    if ids != [] {
      PickIsListed(l, ids[..|ids| - 1], now);
    }
  }

  /** The loop takes the first subnet with the largest count if and only if its ID is not empty; an
      empty ID there makes it start over behind. */
  lemma {:induction false} PickIsFirstMaximum(l: Ledger, ids: seq<string>, now: int) returns (i: nat)
    requires ids != []
    ensures i < |ids|
    ensures forall j :: 0 <= j < |ids| ==> Effective(l, ids[j], now) <= Effective(l, ids[i], now)
    ensures forall j :: 0 <= j < i ==> Effective(l, ids[j], now) < Effective(l, ids[i], now)
    ensures Pick(l, ids, now) == if ids[i] != "" then ids[i] else Pick(l, ids[i + 1..], now)
  {
    var n := |ids| - 1;
    if n == 0 {
      PickOne(l, ids[0], now);
      assert ids == [ids[0]] && ids[1..] == [];
      i := 0;
    } else {
      var front, last := ids[..n], ids[n];
      assert ids == front + [last];
      i := PickIsFirstMaximum(l, front, now);
      if Effective(l, last, now) > Effective(l, front[i], now) {
        PickTakesLarger(l, front, last, i, now);
        i := n;
      } else {
        PickSkipsSmaller(l, front, last, i, now);
      }
    }
  }

  lemma PickTakesLarger(l: Ledger, front: seq<string>, last: string, i: nat, now: int)
    requires i < |front| && Effective(l, front[i], now) < Effective(l, last, now)
    requires forall j :: 0 <= j < |front| ==> Effective(l, front[j], now) <= Effective(l, front[i], now)
    ensures Pick(l, front + [last], now) == last
  {
    PickIsListed(l, front, now);
    PickSnoc(l, front, last, now);
  }

  lemma PickSkipsSmaller(l: Ledger, front: seq<string>, last: string, i: nat, now: int)
    requires i < |front| && Effective(l, last, now) <= Effective(l, front[i], now)
    requires Pick(l, front, now) == if front[i] != "" then front[i] else Pick(l, front[i + 1..], now)
    ensures Pick(l, front + [last], now)
         == if front[i] != "" then front[i] else Pick(l, (front + [last])[i + 1..], now)
  {
    PickSnoc(l, front, last, now);
    PickSnoc(l, front[i + 1..], last, now);
    assert (front + [last])[i + 1..] == front[i + 1..] + [last];
  }

  /** A ledger some run reaches, where an empty ID with the largest count hides the larger of two others. */
  lemma {:induction false} EmptyIDHidesMaximum()
    ensures var w := Run(Start(60, 300, 0), [Select(["a"], 1), Select(["b"], 2)]);
            && RunFits(Start(60, 300, 0), [Select(["a"], 1), Select(["b"], 2)])
            && Pick(w.ledger, ["a", "", "b"], 0) == "b" && Free(w, "b") < Free(w, "a") < Free(w, "")
  {
    var w0 := Start(60, 300, 0);
    RunOfTwo(w0, Select(["a"], 1), Select(["b"], 2));
    PickOne(w0.ledger, "a", 0);
    var w1 := Apply(w0, Select(["a"], 1));
    PickOne(w1.ledger, "b", 0);
    PickPastEmpty(Apply(w1, Select(["b"], 2)).ledger, "a", "b", 0);
  }

  lemma PickPastEmpty(l: Ledger, a: string, b: string, now: int)
    requires Effective(l, a, now) < Effective(l, "", now)
    ensures Pick(l, [a, "", b], now) == b
  {
    PickOne(l, a, now);
    PickSnoc(l, [a], "", now);
    PickSnoc(l, [a, ""], b, now);
    assert [a] + [""] == [a, ""] && [a, ""] + [b] == [a, "", b];
  }

  /** Straight after a refresh and the reconcile that follows it, a launch gets the subnet with the
      most free addresses, the smallest ID among equals. */
  lemma FreshSelectionIsFreest(l: Ledger, response: seq<VpcSubnet>, terms: seq<SelectorTerm>, hash: string,
                               now: int, ids: seq<string>)
    requires 0 <= l.ipTTL
    requires forall i :: 0 <= i < |response| ==> response[i].id != ""
    requires Matched(response, terms) != map[]
    requires IsStatusOrder(Matched(response, terms), ids)
    ensures var m := Matched(response, terms);
            var id := Pick(SubnetLedger.Refresh(l, m, hash, now), ids, now);
            && id in m
            && forall other :: other in m && other != id ==>
                 || m[id].available > m[other].available
                 || (m[id].available == m[other].available && StringLess(id, other))
  {
    var m := Matched(response, terms);
    MatchedOwnIDs(response, terms);
    forall id | id in m ensures id != "" {
      assert m[id] in response;
    }
    RefreshedCounts(l, m, hash, now);
    PickIsFreest(SubnetLedger.Refresh(l, m, hash, now), m, ids, now);
  }

  lemma PickIsFreest(l: Ledger, m: map<string, VpcSubnet>, ids: seq<string>, now: int)
    requires forall id :: id in m ==> id != "" && m[id].id == id && Effective(l, id, now) == m[id].available
    requires m != map[] && IsStatusOrder(m, ids)
    ensures var id := Pick(l, ids, now);
            id in m && forall other :: other in m && other != id ==> MoreFree(m[id], m[other])
  {
    assert m.Keys != {};
    var some :| some in m;
    assert some in ids;
    var i := PickIsFirstMaximum(l, ids, now);
    forall j | 0 <= j < |ids| ensures ids[j] in m && m[ids[j]].available <= m[ids[i]].available {
      assert ids[j] in ids && Effective(l, ids[j], now) <= Effective(l, ids[i], now);
    }
    forall j | 0 <= j < i ensures m[ids[j]].available < m[ids[i]].available {
      assert ids[j] in ids && Effective(l, ids[j], now) < Effective(l, ids[i], now);
    }
    FirstMaximumIsFreest(m, ids, i);
  }

  lemma FirstMaximumIsFreest(m: map<string, VpcSubnet>, ids: seq<string>, i: nat)
    requires IsStatusOrder(m, ids) && i < |ids| && forall id :: id in m ==> m[id].id == id
    requires forall j :: 0 <= j < |ids| ==> m[ids[j]].available <= m[ids[i]].available
    requires forall j :: 0 <= j < i ==> m[ids[j]].available < m[ids[i]].available
    ensures forall other :: other in m && other != ids[i] ==> MoreFree(m[ids[i]], m[other])
  {
    forall other | other in m && other != ids[i] ensures MoreFree(m[ids[i]], m[other]) {
      var j :| 0 <= j < |ids| && ids[j] == other;
      assert i < j ==> !MoreFree(m[ids[j]], m[ids[i]]);
      StringLessTotal(other, ids[i]);
    }
  }

  lemma RefreshedCounts(l: Ledger, m: map<string, VpcSubnet>, hash: string, now: int)
    requires 0 <= l.ipTTL
    ensures forall id :: id in m ==> Effective(SubnetLedger.Refresh(l, m, hash, now), id, now) == m[id].available
  {
  }
}
