/** The hash controller: one reconcile rewrites claim annotations in place, then the class's. */
module HashController {
  import opened Base
  import opened HashMigration

  /** The claims after every one that needs it was patched, except where the patch fails. */
  function Migrated(claims: map<string, Claim>, current: string, fails: string -> bool): map<string, Claim> {
    map n | n in claims ::
      if claims[n].notes.version == Some(VERSION) || fails(n) then claims[n]
      else claims[n].(notes := Patched(claims[n].notes, claims[n], current))
  }

  predicate SomePatchFails(claims: map<string, Claim>, fails: string -> bool) {
    exists n :: n in claims && claims[n].notes.version != Some(VERSION) && fails(n)
  }

  class Cluster {
    var nodeClass: Notes
    var claims: map<string, Claim>
    ghost var origin: map<string, Notes>
    ghost var kept: set<string>
    ghost var steady: set<string>

    constructor (nodeClass: Notes, claims: map<string, Claim>)
      ensures forall current :: Value(current, Idle) == Start(current, nodeClass, claims)
    {
      this.nodeClass, this.claims := nodeClass, claims;
      origin := map n | n in claims :: claims[n].notes;
      kept, steady := {}, set n | n in claims && claims[n].drifted;
    }

    ghost function Value(current: string, progress: Progress): World
      reads this
    {
      World(current, nodeClass, claims, progress, origin, kept, steady)
    }

    /** The body of the claim loop: one claim, as it was listed. */
    method PatchOne(name: string, seen: Claim, current: string, fails: bool, ghost todo: map<string, Claim>,
                    ghost before: bool)
      returns (failed: bool)
      requires name in claims && claims[name] == seen && name in todo && todo[name] == seen
      modifies this`claims, this`kept
      ensures failed <==> seen.notes.version != Some(VERSION) && fails
      ensures claims == if seen.notes.version == Some(VERSION) || fails then old(claims)
                        else old(claims)[name := seen.(notes := Patched(seen.notes, seen, current))]
      ensures Value(current, Migrating(todo - {name}, before || failed))
           == Apply(old(Value(current, Migrating(todo, before))), PatchClaim(name, fails))
    {
      failed := false;
      if seen.notes.version != Some(VERSION) {
        var notes := seen.notes.(version := Some(VERSION));
        if !seen.drifted {
          notes := notes.(hash := Some(current));
        }
        if fails {
          failed := true;
        } else {
          claims := claims[name := claims[name].(notes := notes)];
          if seen.drifted {
            kept := kept + {name};
          }
        }
      }
    }

    /** The claim loop. A failing patch does not stop it; the failures are combined at the end. */
    method UpdateNodeClaimHash(current: string, fails: string -> bool)
      returns (failed: bool, ghost steps: seq<Step>)
      modifies this`claims, this`kept
      ensures claims == Migrated(old(claims), current, fails)
      ensures failed <==> SomePatchFails(old(claims), fails)
      ensures Value(current, Migrating(map[], failed)) == Run(old(Value(current, Migrating(claims, false))), steps)
    {
      failed, steps := false, [];
      var listed := claims;
      ghost var start := Value(current, Migrating(claims, false));
      var rest := listed;
      while rest != map[]
        invariant rest.Keys <= listed.Keys && (forall n :: n in rest ==> rest[n] == listed[n])
        invariant claims.Keys == listed.Keys
        invariant forall n :: n in listed ==>
                  claims[n] == if n in rest then listed[n] else Migrated(listed, current, fails)[n]
        invariant failed <==> SomePatchFails(listed - rest.Keys, fails)
        invariant Value(current, Migrating(rest, failed)) == Run(start, steps)
        decreases rest.Keys
      {
        assert rest.Keys != {};
        var name :| name in rest.Keys;
        RunSnoc(start, steps, PatchClaim(name, fails(name)));
        var failure := PatchOne(name, rest[name], current, fails(name), rest, failed);
        OneMoreFails(listed, rest, name, fails);
        steps := steps + [PatchClaim(name, fails(name))];
        rest := rest - {name};
        failed := failed || failure;
      }
      assert listed - {} == listed;
    }

    /** One reconcile without interference: a run of the steps above, ending idle. */
    method Reconcile(current: string, listFails: bool, fails: string -> bool, classFails: bool)
      returns (failed: bool, ghost steps: seq<Step>)
      modifies this
      ensures Value(current, Idle) == Run(old(Value(current, Idle)), steps)
      ensures old(nodeClass.version) == Some(VERSION) ==> claims == old(claims)
      ensures old(nodeClass.version) != Some(VERSION) ==>
                claims == if listFails then old(claims) else Migrated(old(claims), current, fails)
      ensures nodeClass == if failed then old(nodeClass) else CurrentNotes(current)
      ensures failed <==>
                || (old(nodeClass.version) != Some(VERSION) && (listFails || SomePatchFails(old(claims), fails)))
                || (old(nodeClass) != CurrentNotes(current) && classFails)
    {
      ghost var start := Value(current, Idle);
      steps := [];
      RunSnoc(start, steps, Begin);
      steps := steps + [Begin];
      if nodeClass.version != Some(VERSION) {
        if listFails {
          RunSnoc(start, steps, Crash);
          steps := steps + [Crash];
          return true, steps;
        }
        ghost var patches;
        failed, patches := UpdateNodeClaimHash(current, fails);
        RunConcat(start, steps, patches);
        steps := steps + patches;
        RunSnoc(start, steps, EndClaims);
        steps := steps + [EndClaims];
        if failed {
          return true, steps;
        }
      }
      RunSnoc(start, steps, PatchClass(classFails));
      var stamped := CurrentNotes(current);
      if nodeClass != stamped {
        if classFails {
          return true, steps + [PatchClass(classFails)];
        }
        nodeClass := stamped;
      }
      return false, steps + [PatchClass(classFails)];
    }
  }

  lemma {:induction false} RunConcat(w: World, a: seq<Step>, b: seq<Step>)
    ensures Run(w, a + b) == Run(Run(w, a), b)
  {
    if b == [] {
      assert a + b == a;
    } else {
      var n := |b| - 1;
      RunConcat(w, a, b[..n]);
      assert (a + b)[..|a + b| - 1] == a + b[..n];
    }
  }

  lemma OneMoreFails(listed: map<string, Claim>, rest: map<string, Claim>, name: string, fails: string -> bool)
    requires name in rest && rest.Keys <= listed.Keys
    ensures SomePatchFails(listed - (rest - {name}).Keys, fails) <==>
              SomePatchFails(listed - rest.Keys, fails) || (listed[name].notes.version != Some(VERSION) && fails(name))
  {
  }
}
