/** What a subnet listing answers and which baselines hold, told from the cloud's replies alone. */
module ListingRuns {
  import opened Base
  import opened SubnetLedger
  import opened LedgerRuns

  // ---------- history ----------

  function Clock(now: int, steps: seq<Step>): int {
    if steps == [] then now else
    var last := steps[|steps| - 1];
    Clock(now, steps[..|steps| - 1]) + if last.Tick? then last.elapsed else 0
  }

  /** A reply that a listing asked for and got. */
  datatype Fetch = Fetch(at: int, terms: seq<SelectorTerm>, response: seq<VpcSubnet>)

  /** The last fetch for a hash: the first successful reply, then the first one more than a lifetime
      after that, and so on. Replies in between are not asked for. */
  function LastFetch(ttl: int, now: int, steps: seq<Step>, hash: string): Option<Fetch> {
    if steps == [] then None else
    var front, last := steps[..|steps| - 1], steps[|steps| - 1];
    var before := LastFetch(ttl, now, front, hash);
    if last.ListSubnets? && last.hash == hash && last.terms != [] && last.reply.Ok?
       && (before.Some? ==> before.value.at + ttl < Clock(now, front))
    then Some(Fetch(Clock(now, front), last.terms, last.reply.value))
    else before
  }

  /** The last step of the run is a fetch. */
  predicate EndsInFetch(ttl: int, now: int, steps: seq<Step>) {
    && steps != []
    && var front, last := steps[..|steps| - 1], steps[|steps| - 1];
       && last.ListSubnets? && last.terms != [] && last.reply.Ok?
       && var before := LastFetch(ttl, now, front, last.hash);
          before.Some? ==> before.value.at + ttl < Clock(now, front)
  }

  /** A count the cloud reported for a subnet, and when. */
  datatype Count = Count(at: int, available: int)

  /** The count of the last fetch, for any hash, that selected the subnet. */
  function LastCount(ttl: int, now: int, steps: seq<Step>, id: string): Option<Count> {
    if steps == [] then None else
    var front, last := steps[..|steps| - 1], steps[|steps| - 1];
    if EndsInFetch(ttl, now, steps) && LastEntry(last.reply.value, last.terms, id).Some?
    then Some(Count(Clock(now, front), LastEntry(last.reply.value, last.terms, id).value.available))
    else LastCount(ttl, now, front, id)
  }

  // ---------- selection ----------

  /** A term selects by ID, by name, or by both; an empty one selects nothing. */
  predicate Selects(t: SelectorTerm, s: VpcSubnet) {
    if t.id != "" then s.id == t.id && (t.name == "" || s.name == t.name)
    else t.name != "" && s.name == t.name
  }

  predicate Wanted(terms: seq<SelectorTerm>, s: VpcSubnet) {
    exists i :: 0 <= i < |terms| && Selects(terms[i], s)
  }

  /** The last selected entry of the response with the ID. */
  function LastEntry(response: seq<VpcSubnet>, terms: seq<SelectorTerm>, id: string): Option<VpcSubnet> {
    if response == [] then None else
    var s := response[|response| - 1];
    if s.id == id && Wanted(terms, s) then Some(s) else LastEntry(response[..|response| - 1], terms, id)
  }

  /** `m` holds under each ID the last selected entry with that ID, and nothing else. */
  ghost predicate HoldsEntries(m: map<string, VpcSubnet>, response: seq<VpcSubnet>, terms: seq<SelectorTerm>) {
    forall id :: LastEntry(response, terms, id) == if id in m then Some(m[id]) else None
  }

  lemma {:induction false} LastEntryMeaning(response: seq<VpcSubnet>, terms: seq<SelectorTerm>, id: string)
    ensures LastEntry(response, terms, id).None? ==>
              forall k :: 0 <= k < |response| && response[k].id == id ==> !Wanted(terms, response[k])
    ensures LastEntry(response, terms, id).Some? ==>
              exists k :: 0 <= k < |response| && LastEntry(response, terms, id).value == response[k]
                       && response[k].id == id && Wanted(terms, response[k])
                       && forall j :: k < j < |response| && response[j].id == id ==> !Wanted(terms, response[j])
  {
    if response != [] {
      var n := |response| - 1;
      var front := response[..n];
      LastEntryMeaning(front, terms, id);
      if !(response[n].id == id && Wanted(terms, response[n])) && LastEntry(front, terms, id).Some? {
        var k :| 0 <= k < n && LastEntry(front, terms, id).value == front[k]
              && front[k].id == id && Wanted(terms, front[k])
              && forall j :: k < j < n && front[j].id == id ==> !Wanted(terms, front[j]);
        assert forall j :: k < j < n ==> response[j] == front[j];
        assert response[k] == front[k];
      }
    }
  }

  lemma WantedMeansMatches(terms: seq<SelectorTerm>, s: VpcSubnet)
    ensures Wanted(terms, s) <==> Matches(s, terms)
  {
    forall i | 0 <= i < |terms| ensures Selects(terms[i], s) <==> MatchesTerm(s, terms[i]) {
    }
  }

  lemma {:induction false} MatchedHoldsEntries(response: seq<VpcSubnet>, terms: seq<SelectorTerm>)
    ensures HoldsEntries(Matched(response, terms), response, terms)
  {
    if response != [] {
      var n := |response| - 1;
      MatchedHoldsEntries(response[..n], terms);
      WantedMeansMatches(terms, response[n]);
    }
  }

  // ---------- the ledger remembers exactly the last fetches ----------

  ghost predicate Remembers(w: World, listTTL: int, ipTTL: int, now: int, steps: seq<Step>) {
    && w.now == Clock(now, steps) && w.ledger.listTTL == listTTL && w.ledger.ipTTL == ipTTL
    && (forall hash :: ListRemembered(w.ledger.lists, listTTL, LastFetch(listTTL, now, steps, hash), hash))
    && (forall id :: CountRemembered(w.ledger.baselines, ipTTL, LastCount(listTTL, now, steps, id), id))
  }

  ghost predicate ListRemembered(lists: map<string, Timed<map<string, VpcSubnet>>>, ttl: int, f: Option<Fetch>,
                                 hash: string) {
    && (hash in lists <==> f.Some?)
    && (f.Some? ==> lists[hash] == Timed(Matched(f.value.response, f.value.terms), f.value.at + ttl))
  }

  ghost predicate CountRemembered(baselines: map<string, Timed<int>>, ttl: int, c: Option<Count>, id: string) {
    && (id in baselines <==> c.Some?)
    && (c.Some? ==> baselines[id] == Timed(c.value.available, c.value.at + ttl))
  }

  lemma RefreshIsFetch(w: World, listTTL: int, ipTTL: int, now: int, front: seq<Step>, step: Step)
    requires Remembers(w, listTTL, ipTTL, now, front) && step.ListSubnets?
    ensures Refreshes(w.ledger, step.terms, step.hash, w.now, step.reply)
       <==> EndsInFetch(listTTL, now, front + [step])
  {
    assert (front + [step])[..|front|] == front;
    assert ListRemembered(w.ledger.lists, listTTL, LastFetch(listTTL, now, front, step.hash), step.hash);
  }

  lemma StepRemembersLists(w: World, listTTL: int, ipTTL: int, now: int, front: seq<Step>, step: Step, hash: string)
    requires Remembers(w, listTTL, ipTTL, now, front)
    ensures ListRemembered(Apply(w, step).ledger.lists, listTTL, LastFetch(listTTL, now, front + [step], hash), hash)
  {
    assert (front + [step])[..|front|] == front;
    if step.ListSubnets? {
      RefreshIsFetch(w, listTTL, ipTTL, now, front, step);
    }
    assert ListRemembered(w.ledger.lists, listTTL, LastFetch(listTTL, now, front, hash), hash);
  }

  lemma StepRemembersCounts(w: World, listTTL: int, ipTTL: int, now: int, front: seq<Step>, step: Step, id: string)
    requires Remembers(w, listTTL, ipTTL, now, front)
    ensures CountRemembered(Apply(w, step).ledger.baselines, ipTTL, LastCount(listTTL, now, front + [step], id), id)
  {
    assert (front + [step])[..|front|] == front;
    assert CountRemembered(w.ledger.baselines, ipTTL, LastCount(listTTL, now, front, id), id);
    if step.ListSubnets? {
      RefreshIsFetch(w, listTTL, ipTTL, now, front, step);
      if step.reply.Ok? {
        MatchedHoldsEntries(step.reply.value, step.terms);
      }
    }
  }

  lemma StepRemembers(w: World, listTTL: int, ipTTL: int, now: int, front: seq<Step>, step: Step)
    requires Remembers(w, listTTL, ipTTL, now, front)
    ensures Remembers(Apply(w, step), listTTL, ipTTL, now, front + [step])
  {
    assert (front + [step])[..|front|] == front;
    forall hash {
      StepRemembersLists(w, listTTL, ipTTL, now, front, step, hash);
    }
    forall id {
      StepRemembersCounts(w, listTTL, ipTTL, now, front, step, id);
    }
  }

  lemma {:induction false} RememberedAlways(listTTL: int, ipTTL: int, now: int, steps: seq<Step>)
    ensures Remembers(Run(Start(listTTL, ipTTL, now), steps), listTTL, ipTTL, now, steps)
  {
    if steps != [] {
      var front, last := steps[..|steps| - 1], steps[|steps| - 1];
      RememberedAlways(listTTL, ipTTL, now, front);
      StepRemembers(Run(Start(listTTL, ipTTL, now), front), listTTL, ipTTL, now, front, last);
      assert front + [last] == steps;
    }
  }

  // ---------- results ----------

  /** In every run: from a fetch for a hash until one list lifetime after it, a listing with that hash
      answers that fetch's selected subnets; otherwise those of its own reply, or that reply's error.
      Without selector terms it answers nothing. */
  lemma {:induction false} ListAnswers(listTTL: int, ipTTL: int, now: int, steps: seq<Step>,
                                       terms: seq<SelectorTerm>, hash: string, reply: Result<seq<VpcSubnet>, string>)
    ensures var a := Answer(Run(Start(listTTL, ipTTL, now), steps).ledger, terms, hash, Clock(now, steps), reply);
            var f := LastFetch(listTTL, now, steps, hash);
            if terms == [] then a == Ok(map[])
            else if f.Some? && Clock(now, steps) <= f.value.at + listTTL then
              a.Ok? && HoldsEntries(a.value, f.value.response, f.value.terms)
            else if reply.Ok? then a.Ok? && HoldsEntries(a.value, reply.value, terms)
            else a == Err(reply.error)
  {
    RememberedAlways(listTTL, ipTTL, now, steps);
    var w, f := Run(Start(listTTL, ipTTL, now), steps), LastFetch(listTTL, now, steps, hash);
    assert ListRemembered(w.ledger.lists, listTTL, f, hash);
    if f.Some? {
      MatchedHoldsEntries(f.value.response, f.value.terms);
    }
    if reply.Ok? {
      MatchedHoldsEntries(reply.value, terms);
    }
  }

  /** In every run: a subnet's baseline is the count of the last fetch that selected it, for one address
      lifetime. A launch counts what is tracked, else the baseline, else nothing. */
  lemma {:induction false} BaselineIsLastCount(listTTL: int, ipTTL: int, now: int, steps: seq<Step>, id: string)
    ensures var w := Run(Start(listTTL, ipTTL, now), steps);
            var c := LastCount(listTTL, now, steps, id);
            && w.now == Clock(now, steps)
            && Baseline(w, id) == (if c.Some? && w.now <= c.value.at + ipTTL then Some(c.value.available) else None)
            && Free(w, id) == if id in w.ledger.inflight then w.ledger.inflight[id]
                              else if Baseline(w, id).Some? then Baseline(w, id).value else 0
  {
    RememberedAlways(listTTL, ipTTL, now, steps);
    var w := Run(Start(listTTL, ipTTL, now), steps);
    assert CountRemembered(w.ledger.baselines, ipTTL, LastCount(listTTL, now, steps, id), id);
  }
}
