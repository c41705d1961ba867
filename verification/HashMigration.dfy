/** Moving the hash annotations of a node class and its node claims to a new hash version, one patch
    at a time, while other controllers act and any patch can fail. */
module HashMigration {
  import opened Base

  const VERSION := "v3"

  /** The two annotations: hash and hash version. */
  datatype Notes = Notes(hash: Option<string>, version: Option<string>)

  /** `drifted`: the Drifted condition is present, for whatever reason. */
  datatype Claim = Claim(notes: Notes, drifted: bool, launched: bool)

  /** Where a reconcile is: the claims it listed and has not patched yet, or about to patch the class. */
  datatype Progress = Idle | Migrating(todo: map<string, Claim>, failed: bool) | Stamping

  /** `current` is the hash of the class's spec under the current version. History: `origin` holds the
      notes with which a still existing claim entered the run, `kept` the claims whose version was
      migrated while their hash stayed, `steady` those Drifted ever since the start. */
  datatype World = World(
    current: string,
    nodeClass: Notes,
    claims: map<string, Claim>,
    progress: Progress,
    origin: map<string, Notes>,
    kept: set<string>,
    steady: set<string>)

  datatype Step =
    | Begin
    | PatchClaim(name: string, fails: bool)
    | EndClaims
    | PatchClass(fails: bool)
    | Crash
    | CreateClaim(name: string)
    | LaunchClaim(name: string)
    | DeleteClaim(name: string)
    | MarkDrifted(name: string)
    | ClearDrifted(name: string)

  function CurrentNotes(current: string): Notes {
    Notes(Some(current), Some(VERSION))
  }

  /** The drift check: only equal versions are compared. */
  predicate Reported(nodeClass: Notes, claim: Notes) {
    && nodeClass.hash.Some? && claim.hash.Some? && nodeClass.version.Some? && claim.version.Some?
    && nodeClass.version == claim.version
    && nodeClass.hash != claim.hash
  }

  /** A patch computed from the listed claim `seen`, applied to the notes the claim has by now. */
  function Patched(notes: Notes, seen: Claim, current: string): Notes {
    if seen.drifted then notes.(version := Some(VERSION)) else CurrentNotes(current)
  }

  function Apply(w: World, step: Step): World {
    match step
    case Begin =>
      if !w.progress.Idle? then w
      else if w.nodeClass.version != Some(VERSION) then w.(progress := Migrating(w.claims, false))
      else w.(progress := Stamping)
    case PatchClaim(name, fails) =>
      if !(w.progress.Migrating? && name in w.progress.todo) then w else
      var seen := w.progress.todo[name];
      var rest := w.progress.todo - {name};
      if seen.notes.version == Some(VERSION) then w.(progress := Migrating(rest, w.progress.failed))
      else if name !in w.claims then w.(progress := Migrating(rest, w.progress.failed))
      else if fails then w.(progress := Migrating(rest, true))
      else
        var c := w.claims[name];
        w.(progress := Migrating(rest, w.progress.failed),
           claims := w.claims[name := c.(notes := Patched(c.notes, seen, w.current))],
           kept := if seen.drifted && c.notes.version != Some(VERSION) then w.kept + {name} else w.kept)
    case EndClaims =>
      if !(w.progress.Migrating? && w.progress.todo == map[]) then w
      else w.(progress := if w.progress.failed then Idle else Stamping)
    case PatchClass(fails) =>
      if !w.progress.Stamping? then w
      else w.(progress := Idle, nodeClass := if fails then w.nodeClass else CurrentNotes(w.current))
    case Crash => w.(progress := Idle)
    case CreateClaim(name) =>
      if name in w.claims then w
      else w.(claims := w.claims[name := Claim(Notes(None, None), false, false)])
    case LaunchClaim(name) =>
      if name !in w.claims || w.claims[name].launched then w
      else w.(claims := w.claims[name := w.claims[name].(notes := CurrentNotes(w.current), launched := true)],
              kept := w.kept - {name}, steady := w.steady - {name})
    case DeleteClaim(name) =>
      w.(claims := w.claims - {name}, origin := w.origin - {name}, kept := w.kept - {name}, steady := w.steady - {name})
    case MarkDrifted(name) =>
      if name !in w.claims then w else w.(claims := w.claims[name := w.claims[name].(drifted := true)])
    case ClearDrifted(name) =>
      if name !in w.claims then w
      else w.(claims := w.claims[name := w.claims[name].(drifted := false)], steady := w.steady - {name})
  }

  function Run(w: World, steps: seq<Step>): World {
    if steps == [] then w else Apply(Run(w, steps[..|steps| - 1]), steps[|steps| - 1])
  }

  /** Any cluster, before the first reconcile. */
  function Start(current: string, nodeClass: Notes, claims: map<string, Claim>): World {
    World(current, nodeClass, claims, Idle,
          map n | n in claims :: claims[n].notes, {}, set n | n in claims && claims[n].drifted)
  }

  // ---------- what every step keeps ----------

  /** A claim that was there from the start: only its version moved, or nothing did, or it is stamped. */
  ghost predicate OldClaimInv(w: World, name: string)
    requires name in w.claims && name in w.origin
  {
    var notes, first := w.claims[name].notes, w.origin[name];
    if name in w.kept then first.version != Some(VERSION) && notes == first.(version := Some(VERSION))
    else notes == first || (notes == CurrentNotes(w.current) && name !in w.steady)
  }

  /** A claim created during the run has no hash yet or the current one. */
  predicate NewClaimInv(w: World, name: string)
    requires name in w.claims
  {
    w.claims[name].notes in {Notes(None, None), Notes(None, Some(VERSION)), CurrentNotes(w.current)}
  }

  ghost predicate ClaimsInv(w: World) {
    && w.origin.Keys <= w.claims.Keys && w.kept <= w.claims.Keys && w.steady <= w.origin.Keys
    && (forall n :: n in w.steady ==> w.claims[n].drifted)
    && (forall n :: n in w.kept ==> w.claims[n].notes.version == Some(VERSION))
    && (forall n :: n in w.claims ==> if n in w.origin then OldClaimInv(w, n) else NewClaimInv(w, n))
  }

  /** A listed claim that still needs its patch has not been kept, and was listed as Drifted if it
      always was. */
  ghost predicate TodoInv(w: World, name: string, seen: Claim) {
    && (seen.notes.version != Some(VERSION) ==> name !in w.kept)
    && (name in w.steady ==> seen.drifted)
  }

  predicate AllMoved(w: World)
    requires w.origin.Keys <= w.claims.Keys
  {
    forall n :: n in w.origin ==> w.claims[n].notes.version == Some(VERSION)
  }

  ghost predicate ProgressInv(w: World)
    requires w.origin.Keys <= w.claims.Keys
  {
    match w.progress
    case Idle => true
    case Stamping => AllMoved(w)
    case Migrating(todo, failed) =>
      && (forall n :: n in todo ==> TodoInv(w, n, todo[n]))
      && (!failed ==> forall n :: n in w.origin && w.claims[n].notes.version != Some(VERSION) ==>
            n in todo && todo[n].notes.version != Some(VERSION))
  }

  ghost predicate Inv(w: World, first: Notes) {
    && ClaimsInv(w) && ProgressInv(w)
    && (w.nodeClass == first || (w.nodeClass == CurrentNotes(w.current) && AllMoved(w)))
  }

  lemma PatchKeeps(w: World, first: Notes, name: string, fails: bool)
    requires Inv(w, first)
    ensures Inv(Apply(w, PatchClaim(name, fails)), first)
  {
  }

  /** The reconcile steps that patch no claim. */
  lemma ProgressKeeps(w: World, first: Notes, step: Step)
    requires Inv(w, first) && (step.Begin? || step.EndClaims? || step.PatchClass? || step.Crash?)
    requires first.version != Some(VERSION)
    ensures Inv(Apply(w, step), first)
  {
  }

  /** Claims appear, launch and go. */
  lemma LifecycleKeeps(w: World, first: Notes, step: Step)
    requires Inv(w, first)
    requires step.CreateClaim? || step.LaunchClaim? || step.DeleteClaim?
    ensures Inv(Apply(w, step), first)
  {
  }

  /** The Drifted condition comes and goes. */
  lemma ConditionKeeps(w: World, first: Notes, step: Step)
    requires Inv(w, first)
    requires step.MarkDrifted? || step.ClearDrifted?
    ensures Inv(Apply(w, step), first)
  {
  }

  lemma StepKeeps(w: World, first: Notes, step: Step)
    requires Inv(w, first) && first.version != Some(VERSION)
    ensures Inv(Apply(w, step), first)
  {
    match step
    case PatchClaim(name, fails) => PatchKeeps(w, first, name, fails);
    case Begin => ProgressKeeps(w, first, step);
    case EndClaims => ProgressKeeps(w, first, step);
    case PatchClass(fails) => ProgressKeeps(w, first, step);
    case Crash => ProgressKeeps(w, first, step);
    case MarkDrifted(name) => ConditionKeeps(w, first, step);
    case ClearDrifted(name) => ConditionKeeps(w, first, step);
    case _ => LifecycleKeeps(w, first, step);
  }

  /** Steps only ever drop origins. */
  lemma OriginsStay(w: World, step: Step)
    ensures forall n :: n in Apply(w, step).origin ==> n in w.origin && Apply(w, step).origin[n] == w.origin[n]
    ensures Apply(w, step).current == w.current
  {
  }

  lemma {:induction false} InvAlways(current: string, first: Notes, claims: map<string, Claim>, steps: seq<Step>)
    requires first.version != Some(VERSION)
    ensures Inv(Run(Start(current, first, claims), steps), first)
    ensures Run(Start(current, first, claims), steps).current == current
    ensures forall n :: n in Run(Start(current, first, claims), steps).origin ==>
              n in claims && Run(Start(current, first, claims), steps).origin[n] == claims[n].notes
  {
    if steps != [] {
      var front := steps[..|steps| - 1];
      InvAlways(current, first, claims, front);
      StepKeeps(Run(Start(current, first, claims), front), first, steps[|steps| - 1]);
      OriginsStay(Run(Start(current, first, claims), front), steps[|steps| - 1]);
    }
  }

  // ---------- results ----------

  /** In every reachable state, exactly which claims the drift check reports. Before the class is
      stamped: those it reported at the start and that no patch has touched. After: those that kept
      their old hash through the migration (or had the new version all along), if it differs. */
  lemma ReportedExactly(current: string, first: Notes, claims: map<string, Claim>, steps: seq<Step>, name: string)
    requires first.version != Some(VERSION)
    requires name in Run(Start(current, first, claims), steps).claims
    ensures var w := Run(Start(current, first, claims), steps);
            var notes := w.claims[name].notes;
            Reported(w.nodeClass, notes) <==>
              && name in w.origin
              && if w.nodeClass == first then
                   && notes == w.origin[name]
                   && first.hash.Some? && notes.hash.Some? && first.hash.value != notes.hash.value
                   && first.version.Some? && notes.version.Some? && first.version.value == notes.version.value
                 else
                   && (name in w.kept || (w.origin[name].version == Some(VERSION) && notes == w.origin[name]))
                   && w.origin[name].hash.Some? && w.origin[name].hash.value != current
  {
    InvAlways(current, first, claims, steps);
    var w := Run(Start(current, first, claims), steps);
    assert if name in w.origin then OldClaimInv(w, name) else NewClaimInv(w, name);
  }

  /** A claim that agreed with the class before the migration is reported if and only if the class is
      stamped, the claim's Drifted condition was present when its migrating patch was computed, and the
      new hash differs from the old. Failed patches, retries and crashes never make it reported. */
  lemma MatchedClaimReportedIff(current: string, first: Notes, claims: map<string, Claim>, steps: seq<Step>,
                                name: string)
    requires first.version.Some? && first.version != Some(VERSION) && first.hash.Some?
    requires name in claims && claims[name].notes == first
    requires name in Run(Start(current, first, claims), steps).origin
    ensures var w := Run(Start(current, first, claims), steps);
            name in w.claims &&
            (Reported(w.nodeClass, w.claims[name].notes) <==>
              w.nodeClass != first && name in w.kept && first.hash.value != current)
  {
    InvAlways(current, first, claims, steps);
    ReportedExactly(current, first, claims, steps, name);
  }

  /** Claims created during the migration are never reported. */
  lemma NewClaimNeverReported(current: string, first: Notes, claims: map<string, Claim>, steps: seq<Step>, name: string)
    requires first.version != Some(VERSION)
    requires var w := Run(Start(current, first, claims), steps); name in w.claims && name !in w.origin
    ensures var w := Run(Start(current, first, claims), steps); !Reported(w.nodeClass, w.claims[name].notes)
  {
    ReportedExactly(current, first, claims, steps, name);
  }

  /** A claim that was reported and has been Drifted ever since is reported again as soon as the class
      is stamped, provided the old hash is not by chance the new one. */
  lemma SteadyDriftReturns(current: string, first: Notes, claims: map<string, Claim>, steps: seq<Step>, name: string)
    requires first.version != Some(VERSION)
    requires name in claims && Reported(first, claims[name].notes) && claims[name].notes.hash.value != current
    requires var w := Run(Start(current, first, claims), steps); name in w.steady && w.nodeClass != first
    ensures var w := Run(Start(current, first, claims), steps);
            name in w.claims && Reported(w.nodeClass, w.claims[name].notes)
  {
    InvAlways(current, first, claims, steps);
    ReportedExactly(current, first, claims, steps, name);
    var w := Run(Start(current, first, claims), steps);
    assert OldClaimInv(w, name);
  }

  lemma RunSnoc(w: World, steps: seq<Step>, step: Step)
    ensures Run(w, steps + [step]) == Apply(Run(w, steps), step)
  {
  }

  /** The steps of one undisturbed migration of a class with one claim. */
  const MIGRATION: seq<Step> := [Begin, PatchClaim("a", false), EndClaims, PatchClass(false)]

  /** A class at the previous version with one claim at that version. */
  function OneClaim(oldHash: string, current: string, hash: string, drifted: bool): World {
    Start(current, Notes(Some(oldHash), Some("v2")), map["a" := Claim(Notes(Some(hash), Some("v2")), drifted, true)])
  }

  lemma OneClaimMigrates(oldHash: string, current: string, hash: string, drifted: bool)
    ensures var w := Run(OneClaim(oldHash, current, hash, drifted), MIGRATION);
            && w.nodeClass == CurrentNotes(current)
            && w.claims.Keys == {"a"}
            && w.claims["a"].notes == if drifted then Notes(Some(hash), Some(VERSION)) else CurrentNotes(current)
  {
    var w0 := OneClaim(oldHash, current, hash, drifted);
    var steps: seq<Step> := [];
    RunSnoc(w0, steps, Begin);
    steps := steps + [Begin];
    assert Run(w0, steps).progress == Migrating(w0.claims, false);
    RunSnoc(w0, steps, PatchClaim("a", false));
    steps := steps + [PatchClaim("a", false)];
    assert Run(w0, steps).progress == Migrating(map[], false);
    RunSnoc(w0, steps, EndClaims);
    steps := steps + [EndClaims];
    RunSnoc(w0, steps, PatchClass(false));
    assert MIGRATION == steps + [PatchClass(false)];
  }

  /** The Drifted condition matters both ways: a claim that agreed with the class but was Drifted for
      another reason comes out reported, and one that disagreed but was not yet marked does not. */
  lemma MigrationTrustsDriftedCondition()
    ensures var w := OneClaim("x", "y", "x", true);
            var w' := Run(w, MIGRATION);
            && !Reported(w.nodeClass, w.claims["a"].notes)
            && "a" in w'.claims && Reported(w'.nodeClass, w'.claims["a"].notes)
    ensures var w := OneClaim("x", "y", "z", false);
            var w' := Run(w, MIGRATION);
            && Reported(w.nodeClass, w.claims["a"].notes)
            && "a" in w'.claims && !Reported(w'.nodeClass, w'.claims["a"].notes)
  {
    OneClaimMigrates("x", "y", "x", true);
    OneClaimMigrates("x", "y", "z", false);
  }
}
