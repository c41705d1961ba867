/** Runs of any number of concurrent launches over one suppression cache and one clock. */
module SuppressionRuns {
  import opened Base
  import opened OfferingCache
  import opened Candidates
  import Launch

  datatype Offer = Offer(capacityType: string, instanceType: string, zone: string)

  function OfferKey(o: Offer): string {
    Key(o.capacityType, o.instanceType, o.zone)
  }

  /** A refusal that was remembered, and when. */
  datatype Refusal = Refusal(offer: Offer, time: int)

  /** A candidate the filter kept, when it looked, and how many refusals had been recorded by then. */
  datatype Checked = Checked(offer: Offer, at: int, seen: nat)

  datatype Request = Request(checked: Checked, at: int)

  /** One `Create` call: candidates to filter, those kept and not asked for yet, and its requests. */
  datatype Call = Call(todo: seq<Offer>, open: seq<Checked>, awaiting: Option<Offer>, requests: seq<Request>)

  datatype World = World(ttl: int, now: int, entries: Entries, refusals: seq<Refusal>, calls: seq<Call>)

  datatype Step =
    | Tick(elapsed: nat)
    | Cleanup
    | Begin(candidates: seq<Offer>)
    | Check(call: nat)
    | Send(call: nat)
    | Answer(call: nat, refused: bool)

  function Apply(w: World, step: Step): World {
    match step
    case Tick(elapsed) => w.(now := w.now + elapsed)
    case Cleanup => w.(entries := Sweep(w.entries, w.now))
    case Begin(candidates) => w.(calls := w.calls + [Call(candidates, [], None, [])])
    case Check(i) =>
      if i < |w.calls| && w.calls[i].todo != [] then
        var c := w.calls[i];
        var kept := if Suppressed(w.entries, OfferKey(c.todo[0]), w.now) then []
                    else [Checked(c.todo[0], w.now, |w.refusals|)];
        w.(calls := w.calls[i := c.(todo := c.todo[1..], open := c.open + kept)])
      else w
    case Send(i) =>
      if i < |w.calls| && w.calls[i].todo == [] && w.calls[i].awaiting.None? && w.calls[i].open != [] then
        var c := w.calls[i];
        w.(calls := w.calls[i := c.(open := c.open[1..], awaiting := Some(c.open[0].offer),
                                    requests := c.requests + [Request(c.open[0], w.now)])])
      else w
    case Answer(i, refused) =>
      if i < |w.calls| && w.calls[i].awaiting.Some? then
        var c := w.calls[i];
        if refused then
          w.(entries := Mark(w.entries, OfferKey(c.awaiting.value), w.ttl, w.now),
             refusals := w.refusals + [Refusal(c.awaiting.value, w.now)],
             calls := w.calls[i := c.(awaiting := None)])
        else w.(calls := w.calls[i := c.(awaiting := None, open := [])])
      else w
  }

  function Run(w: World, steps: seq<Step>): World {
    if steps == [] then w else Apply(Run(w, steps[..|steps| - 1]), steps[|steps| - 1])
  }

  function Start(ttl: int, now: int): World {
    World(ttl, now, map[], [], [])
  }

  /** The refusal still suppresses its key at time `t`. */
  predicate Holds(ttl: int, r: Refusal, key: string, t: int) {
    OfferKey(r.offer) == key && (ttl <= 0 || t <= r.time + ttl)
  }

  /** The cache answers, now and at any later time, exactly what the history of refusals says. */
  ghost predicate CacheMeansHistory(w: World) {
    && (forall i :: 0 <= i < |w.refusals| ==> w.refusals[i].time <= w.now)
    && (forall key, t :: w.now <= t ==>
          (Suppressed(w.entries, key, t) <==>
           exists i :: 0 <= i < |w.refusals| && Holds(w.ttl, w.refusals[i], key, t)))
  }

  /** No refusal recorded when the candidate was checked suppressed it then. */
  ghost predicate Cleared(w: World, c: Checked) {
    && c.at <= w.now && c.seen <= |w.refusals|
    && forall i :: 0 <= i < c.seen ==> !Holds(w.ttl, w.refusals[i], OfferKey(c.offer), c.at)
  }

  ghost predicate CallInv(w: World, c: Call) {
    && (forall i :: 0 <= i < |c.open| ==> Cleared(w, c.open[i]))
    && (forall i :: 0 <= i < |c.requests| ==>
          Cleared(w, c.requests[i].checked) && c.requests[i].checked.at <= c.requests[i].at)
  }

  ghost predicate Inv(w: World) {
    && CacheMeansHistory(w)
    && forall i :: 0 <= i < |w.calls| ==> CallInv(w, w.calls[i])
  }

  /** Calls whose own part does not move keep their invariant while history grows. */
  lemma OthersKeep(w: World, w': World, c: Call)
    requires CallInv(w, c) && w'.ttl == w.ttl && w.now <= w'.now
    requires |w.refusals| <= |w'.refusals| && w'.refusals[..|w.refusals|] == w.refusals
    ensures CallInv(w', c)
  {
    forall k: Checked | Cleared(w, k) ensures Cleared(w', k) {
      forall i | 0 <= i < k.seen ensures !Holds(w'.ttl, w'.refusals[i], OfferKey(k.offer), k.at) {
        assert w'.refusals[i] == w'.refusals[..|w.refusals|][i];
      }
    }
  }

  lemma CheckKeeps(w: World, i: nat)
    requires Inv(w)
    ensures Inv(Apply(w, Check(i)))
  {
    var w' := Apply(w, Check(i));
    forall k | 0 <= k < |w'.calls| ensures CallInv(w', w'.calls[k]) {
      OthersKeep(w, w', w.calls[k]);
    }
  }

  lemma RefusalKeeps(w: World, i: nat)
    requires Inv(w)
    ensures Inv(Apply(w, Answer(i, true)))
  {
    var w' := Apply(w, Answer(i, true));
    if i < |w.calls| && w.calls[i].awaiting.Some? {
      MarkMeansRefusal(w, w.calls[i].awaiting.value);
      forall k | 0 <= k < |w'.calls| ensures CallInv(w', w'.calls[k]) {
        OthersKeep(w, w', w.calls[k]);
      }
    }
  }

  lemma MarkMeansRefusal(w: World, o: Offer)
    requires CacheMeansHistory(w)
    ensures CacheMeansHistory(w.(entries := Mark(w.entries, OfferKey(o), w.ttl, w.now),
                                 refusals := w.refusals + [Refusal(o, w.now)]))
  {
    var n, entries, refusals :=
      |w.refusals|, Mark(w.entries, OfferKey(o), w.ttl, w.now), w.refusals + [Refusal(o, w.now)];
    forall key, t | w.now <= t
      ensures Suppressed(entries, key, t) <==> exists k :: 0 <= k < n + 1 && Holds(w.ttl, refusals[k], key, t)
    {
      if key == OfferKey(o) {
        assert Holds(w.ttl, refusals[n], key, t) <==> Suppressed(entries, key, t);
      } else if Suppressed(w.entries, key, t) {
        var k :| 0 <= k < n && Holds(w.ttl, w.refusals[k], key, t);
        assert Holds(w.ttl, refusals[k], key, t);
      }
    }
  }

  lemma StepKeeps(w: World, step: Step)
    requires Inv(w)
    ensures Inv(Apply(w, step))
  {
    var w' := Apply(w, step);
    match step
    case Check(i) => CheckKeeps(w, i);
    case Answer(i, true) => RefusalKeeps(w, i);
    case _ =>
      assert step.Cleanup? ==> forall key, t :: w.now <= t ==>
        (Suppressed(w'.entries, key, t) <==> Suppressed(w.entries, key, t));
      forall k | 0 <= k < |w.calls| ensures CallInv(w', w.calls[k]) {
        OthersKeep(w, w', w.calls[k]);
      }
  }

  lemma {:induction false} InvAlways(ttl: int, now: int, steps: seq<Step>)
    ensures Inv(Run(Start(ttl, now), steps))
    ensures Run(Start(ttl, now), steps).ttl == ttl
  {
    if steps != [] {
      InvAlways(ttl, now, steps[..|steps| - 1]);
      StepKeeps(Run(Start(ttl, now), steps[..|steps| - 1]), steps[|steps| - 1]);
    }
  }

  /** In every run, at every moment, an offering is suppressed exactly when one of its refusals is at
      most one TTL old: a later refusal extends the window, and its end makes the offering eligible. */
  lemma {:induction false} SuppressedIffRecentlyRefused(ttl: int, now: int, steps: seq<Step>, o: Offer)
    requires 0 < ttl
    requires '/' !in o.capacityType && '/' !in o.instanceType
    requires forall i :: 0 <= i < |Run(Start(ttl, now), steps).refusals| ==>
               var r := Run(Start(ttl, now), steps).refusals[i].offer;
               '/' !in r.capacityType && '/' !in r.instanceType
    ensures var w := Run(Start(ttl, now), steps);
            Suppressed(w.entries, OfferKey(o), w.now) <==>
              exists i :: 0 <= i < |w.refusals| && w.refusals[i].offer == o && w.now <= w.refusals[i].time + ttl
  {
    InvAlways(ttl, now, steps);
    var w := Run(Start(ttl, now), steps);
    forall i | 0 <= i < |w.refusals|
      ensures Holds(ttl, w.refusals[i], OfferKey(o), w.now)
         <==> w.refusals[i].offer == o && w.now <= w.refusals[i].time + ttl
    {
      var r := w.refusals[i].offer;
      KeyInjective(o.capacityType, o.instanceType, o.zone, r.capacityType, r.instanceType, r.zone);
    }
    if i :| 0 <= i < |w.refusals| && w.refusals[i].offer == o && w.now <= w.refusals[i].time + ttl {
      assert Holds(ttl, w.refusals[i], OfferKey(o), w.now);
    }
  }

  /** No launch ever asks for an offering with a refusal that was recorded before the launch checked
      that candidate and at most one TTL before it did. Names may contain anything. */
  lemma {:induction false} NoRequestForSuppressed(ttl: int, now: int, steps: seq<Step>, call: nat, request: nat,
                                                  refusal: nat)
    requires var w := Run(Start(ttl, now), steps);
             && call < |w.calls| && request < |w.calls[call].requests|
             && refusal < w.calls[call].requests[request].checked.seen && refusal < |w.refusals|
             && w.refusals[refusal].offer == w.calls[call].requests[request].checked.offer
    ensures var w := Run(Start(ttl, now), steps);
            var r := w.calls[call].requests[request];
            0 < ttl && w.refusals[refusal].time + ttl < r.checked.at <= r.at
  {
    InvAlways(ttl, now, steps);
    var w := Run(Start(ttl, now), steps);
    var c := w.calls[call];
    assert CallInv(w, c);
    assert Cleared(w, c.requests[request].checked);
  }

  // ---------- one launch is such a run ----------

  function OfferOf(c: Candidate): Offer {
    Offer(c.capacityType, c.name, c.zone)
  }

  function Offers(cs: seq<Candidate>): seq<Offer> {
    seq(|cs|, i requires 0 <= i < |cs| => OfferOf(cs[i]))
  }

  function ChecksOf(cs: seq<Candidate>, at: int, seen: nat): seq<Checked> {
    seq(|cs|, i requires 0 <= i < |cs| => Checked(OfferOf(cs[i]), at, seen))
  }

  function Refusals(cs: seq<Candidate>, replies: nat -> Launch.Reply, n: nat): seq<Refusal>
    requires n <= |cs|
  {
    seq(n, i requires 0 <= i < n => Refusal(OfferOf(cs[i]), replies(i).at))
  }

  lemma RunSnoc(w: World, steps: seq<Step>, step: Step)
    ensures Run(w, steps + [step]) == Apply(Run(w, steps), step)
  {
    assert (steps + [step])[..|steps + [step]| - 1] == steps;
  }

  /** The world after a launch began and filtered its first `k` candidates at one instant. */
  function Filtering(w: World, cs: seq<Candidate>, k: nat): World
    requires k <= |cs|
  {
    var kept := Launch.Unsuppressed(w.entries, cs[..k], w.now);
    w.(calls := w.calls + [Call(Offers(cs[k..]), ChecksOf(kept, w.now, |w.refusals|), None, [])])
  }

  lemma {:induction false} FilterIsRun(w: World, cs: seq<Candidate>, k: nat) returns (steps: seq<Step>)
    requires k <= |cs|
    ensures Run(w, steps) == Filtering(w, cs, k)
  {
    if k == 0 {
      steps := [Begin(Offers(cs))];
      RunSnoc(w, [], steps[0]);
      assert [] + steps == steps && cs[0..] == cs && cs[..0] == [];
      assert ChecksOf([], w.now, |w.refusals|) == [];
    } else {
      var front := FilterIsRun(w, cs, k - 1);
      steps := front + [Check(|w.calls|)];
      RunSnoc(w, front, Check(|w.calls|));
      CheckOne(w, cs, k - 1);
    }
  }

  lemma CheckOne(w: World, cs: seq<Candidate>, k: nat)
    requires k < |cs|
    ensures Apply(Filtering(w, cs, k), Check(|w.calls|)) == Filtering(w, cs, k + 1)
  {
    var before, after := Filtering(w, cs, k), Filtering(w, cs, k + 1);
    assert Offers(cs[k..])[0] == OfferOf(cs[k]) && Offers(cs[k..])[1..] == Offers(cs[k + 1..]);
    assert cs[..k + 1][..k] == cs[..k];
    var kept := if Launch.Open(w.entries, cs[k], w.now) then [cs[k]] else [];
    assert OfferKey(OfferOf(cs[k])) == Launch.CacheKey(cs[k]);
    assert ChecksOf(Launch.Unsuppressed(w.entries, cs[..k], w.now) + kept, w.now, |w.refusals|)
        == ChecksOf(Launch.Unsuppressed(w.entries, cs[..k], w.now), w.now, |w.refusals|)
           + ChecksOf(kept, w.now, |w.refusals|);
    assert ChecksOf(kept, w.now, |w.refusals|)
        == if kept == [] then [] else [Checked(OfferOf(cs[k]), w.now, |w.refusals|)];
    var i := |w.calls|;
    assert Apply(before, Check(i)).calls[i] == after.calls[i];
    assert Apply(before, Check(i)).calls == after.calls;
  }

  /** The call's requests name these candidates, in this order. */
  ghost predicate AsksFor(c: Call, cs: seq<Candidate>) {
    |c.requests| == |cs| && forall j :: 0 <= j < |cs| ==> c.requests[j].checked.offer == OfferOf(cs[j])
  }

  /** The last call is about to ask for these candidates. */
  ghost predicate Poised(w: World, open: seq<Candidate>) {
    && w.calls != []
    && var c := w.calls[|w.calls| - 1];
       && c.todo == [] && c.awaiting == None && c.requests == []
       && |c.open| == |open| && forall j :: 0 <= j < |open| ==> c.open[j].offer == OfferOf(open[j])
  }

  /** When the first `n` replies have arrived. */
  function Arrival(replies: nat -> Launch.Reply, now: int, n: nat): int {
    if n == 0 then now else replies(n - 1).at
  }

  /** The last call after `n` candidates were asked for and refused; `w` is the world before the first. */
  ghost predicate Tried(w: World, open: seq<Candidate>, replies: nat -> Launch.Reply, n: nat, w': World)
    requires n <= |open| && Poised(w, open)
  {
    var i := |w.calls| - 1;
    && w'.ttl == w.ttl && w'.now == Arrival(replies, w.now, n)
    && w'.entries == Launch.MarkedAll(w.entries, w.ttl, open, replies, n)
    && w'.refusals == w.refusals + Refusals(open, replies, n)
    && |w'.calls| == |w.calls| && w'.calls[..i] == w.calls[..i]
    && w'.calls[i].todo == [] && w'.calls[i].awaiting == None
    && w'.calls[i].open == w.calls[i].open[n..]
    && AsksFor(w'.calls[i], open[..n])
  }

  /** The world in which the last call sent a request at once and waits until `at` for its answer. */
  function Waiting(w: World, at: int): World
    requires w.calls != [] && w.now <= at
  {
    Apply(Apply(w, Send(|w.calls| - 1)), Tick(at - w.now))
  }

  lemma SendOne(w: World, open: seq<Candidate>, replies: nat -> Launch.Reply, n: nat, w': World)
    requires n < |open| && Poised(w, open) && Tried(w, open, replies, n, w') && w'.now <= replies(n).at
    ensures var i := |w.calls| - 1;
            var s := Waiting(w', replies(n).at);
            && s == w'.(now := replies(n).at, calls := s.calls)
            && |s.calls| == |w.calls| && s.calls[..i] == w.calls[..i]
            && s.calls[i].todo == [] && s.calls[i].awaiting == Some(OfferOf(open[n]))
            && s.calls[i].open == w.calls[i].open[n + 1..]
            && AsksFor(s.calls[i], open[..n + 1])
  {
  }

  lemma RefuseOne(w: World, open: seq<Candidate>, replies: nat -> Launch.Reply, n: nat, w': World)
    requires n < |open| && Poised(w, open) && Tried(w, open, replies, n, w') && w'.now <= replies(n).at
    ensures Tried(w, open, replies, n + 1, Apply(Waiting(w', replies(n).at), Answer(|w.calls| - 1, true)))
  {
    SendOne(w, open, replies, n, w');
    assert Refusals(open, replies, n + 1) == Refusals(open, replies, n) + [Refusal(OfferOf(open[n]), replies(n).at)];
    assert OfferKey(OfferOf(open[n])) == Launch.CacheKey(open[n]);
  }

  /** Replies arrive in order, after `now`. */
  predicate InOrder(replies: nat -> Launch.Reply, now: int, n: nat) {
    forall j: nat :: j < n ==> Arrival(replies, now, j) <= Arrival(replies, now, j + 1)
  }

  /** Extends a run by one request and its answer. */
  lemma {:induction false} OneMoreRequest(w0: World, front: seq<Step>, w': World, at: int, refused: bool)
    returns (steps: seq<Step>)
    requires Run(w0, front) == w' && w'.calls != [] && w'.now <= at
    ensures Run(w0, steps) == Apply(Waiting(w', at), Answer(|w'.calls| - 1, refused))
  {
    var i := |w'.calls| - 1;
    var sent := front + [Send(i)];
    var waiting := sent + [Tick(at - w'.now)];
    steps := waiting + [Answer(i, refused)];
    RunSnoc(w0, front, Send(i));
    RunSnoc(w0, sent, Tick(at - w'.now));
    RunSnoc(w0, waiting, Answer(i, refused));
  }

  lemma {:induction false} RefusalsAreRun(w0: World, before: seq<Step>, w: World, open: seq<Candidate>,
                                          replies: nat -> Launch.Reply, n: nat)
    returns (steps: seq<Step>, w': World)
    requires Run(w0, before) == w && n <= |open| && Poised(w, open) && InOrder(replies, w.now, n)
    ensures Run(w0, steps) == w' && Tried(w, open, replies, n, w')
  {
    if n == 0 {
      steps, w' := before, w;
      assert open[..0] == [] && Refusals(open, replies, 0) == [];
    } else {
      var front, v := RefusalsAreRun(w0, before, w, open, replies, n - 1);
      assert v.now == Arrival(replies, w.now, n - 1) <= Arrival(replies, w.now, n);
      steps := OneMoreRequest(w0, front, v, replies(n - 1).at, true);
      RefuseOne(w, open, replies, n - 1, v);
      w' := Run(w0, steps);
    }
  }

  /** `w'` is `w` after one more launch: it asked for the first `requests` of `open`, and those refused
      among them were remembered and marked. */
  ghost predicate Launched(w: World, open: seq<Candidate>, replies: nat -> Launch.Reply, requests: nat, w': World)
    requires requests <= |open|
  {
    var refused := Launch.RefusedCount(open[..requests], replies);
    && |w'.calls| == |w.calls| + 1 && w'.calls[..|w.calls|] == w.calls
    && AsksFor(w'.calls[|w.calls|], open[..requests])
    && w'.entries == Launch.MarkedAll(w.entries, w.ttl, open, replies, refused)
    && w'.refusals == w.refusals + Refusals(open, replies, refused)
  }

  /** A launch on its own, with `requests` requests, is a run of the steps above: it asks for the same
      candidates, and leaves the same cache, as the method does. */
  lemma {:induction false} LaunchIsRun(w: World, cs: seq<Candidate>, replies: nat -> Launch.Reply, requests: nat)
    returns (steps: seq<Step>)
    requires requests <= |Launch.Unsuppressed(w.entries, cs, w.now)| && InOrder(replies, w.now, requests)
    requires Launch.AllRefused(replies, requests - 1)
    ensures Launched(w, Launch.Unsuppressed(w.entries, cs, w.now), replies, requests, Run(w, steps))
  {
    var open := Launch.Unsuppressed(w.entries, cs, w.now);
    var refused := Launch.RefusedCount(open[..requests], replies);
    var filter, filtered := WholeFilterIsRun(w, cs);
    var front, w' := RefusalsAreRun(w, filter, filtered, open, replies, refused);
    if refused == requests {
      steps := front;
    } else {
      assert w'.now == Arrival(replies, w.now, refused) <= Arrival(replies, w.now, refused + 1);
      steps := OneMoreRequest(w, front, w', replies(refused).at, false);
      EndOne(filtered, open, replies, refused, w');
    }
    TriedIsLaunched(w, filtered, open, replies, requests, w', Run(w, steps));
  }

  lemma TriedIsLaunched(w: World, filtered: World, open: seq<Candidate>, replies: nat -> Launch.Reply, requests: nat,
                        tried: World, w': World)
    requires requests <= |open| && Poised(filtered, open) && filtered == w.(calls := filtered.calls)
    requires |filtered.calls| == |w.calls| + 1 && filtered.calls[..|w.calls|] == w.calls
    requires Tried(filtered, open, replies, Launch.RefusedCount(open[..requests], replies), tried)
    requires w'.entries == tried.entries && w'.refusals == tried.refusals
    requires |w'.calls| == |filtered.calls| && w'.calls[..|w.calls|] == filtered.calls[..|w.calls|]
    requires AsksFor(w'.calls[|w.calls|], open[..requests])
    ensures Launched(w, open, replies, requests, w')
  {
  }

  lemma EndOne(w: World, open: seq<Candidate>, replies: nat -> Launch.Reply, n: nat, w': World)
    requires n < |open| && Poised(w, open) && Tried(w, open, replies, n, w') && w'.now <= replies(n).at
    ensures var i := |w.calls| - 1;
            var s := Apply(Waiting(w', replies(n).at), Answer(i, false));
            && s.entries == w'.entries && s.refusals == w'.refusals
            && |s.calls| == |w.calls| && s.calls[..i] == w.calls[..i] && AsksFor(s.calls[i], open[..n + 1])
  {
    SendOne(w, open, replies, n, w');
  }

  lemma WholeFilterIsRun(w: World, cs: seq<Candidate>) returns (steps: seq<Step>, w': World)
    ensures Run(w, steps) == w' == w.(calls := w'.calls)
    ensures |w'.calls| == |w.calls| + 1 && w'.calls[..|w.calls|] == w.calls
    ensures Poised(w', Launch.Unsuppressed(w.entries, cs, w.now))
  {
    steps := FilterIsRun(w, cs, |cs|);
    w' := Filtering(w, cs, |cs|);
    assert cs[..|cs|] == cs;
  }
}
