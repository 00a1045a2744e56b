/** A rename that `git diff --name-only` lists only under its new name
    (scripts/clawdi-deployment-lag.ts:144): the walk skips the commit although the image revisions
    changed. */
module HiddenRename {
  import opened Common
  import opened RevisionProgram
  import opened ImageRevisions
  import opened DeploymentLag
  import opened RevisionDigest
  import Utf8

  const SCRIPT := "scripts/deploy-backend.sh"

  function Forget(env: Env, q: string): Env {
    Env(env.texts - {q}, env.listed - {q})
  }

  /** Nothing but reading the file itself depends on it. */
  ghost predicate Indifferent(step: Step, q: string) {
    match step
    case Require(p) => p != q
    case Check(_, test) => forall env :: test(env) == test(Forget(env, q))
    case _ => true
  }

  /** The step lists no directory that the file is in. */
  predicate Avoids(step: Step, moved: string) {
    (step.Look? || step.Take?) ==> !Under(step.root, moved)
  }

  function Moved(files: Files, q: string, moved: string): Files
    requires q in files
  {
    (files - {q})[moved := files[q]]
  }

  lemma ListingWithout(files: Files, q: string, moved: string, root: string)
    requires q in files && moved !in files && !Under(root, moved)
    ensures Listing(Moved(files, q, moved), root) == Listing(files, root) - {q}
  {}

  lemma TakenWithout(files: Files, q: string, moved: string, root: string, wanted: string -> bool)
    requires q in files && moved !in files && !Under(root, moved)
    ensures Taken(Moved(files, q, moved), root, wanted) == Taken(files, root, wanted) - {q}
  {
    ListingWithout(files, q, moved, root);
  }

  /** Without the file, a program indifferent to it succeeds as before and has merely not read it. */
  lemma {:induction false} RunWithout(
      steps: seq<Step>, files: Files, q: string, moved: string, env: Env, seen: Footprint, seen': Footprint)
    requires q in files && moved !in files && Execute(steps, files, env, seen).outcome.Ok?
    requires forall i :: 0 <= i < |steps| ==> Indifferent(steps[i], q) && Avoids(steps[i], moved)
    ensures
      Execute(steps, Moved(files, q, moved), Forget(env, q), seen').outcome ==
        Ok(Forget(Execute(steps, files, env, seen).outcome.value, q))
    decreases |steps|
  {
    if steps != [] {
      var after := Moved(files, q, moved);
      assert Indifferent(steps[0], q) && Avoids(steps[0], moved);
      match steps[0] {
        case Require(p) =>
          var next := env.(texts := env.texts[p := files[p]]);
          assert Forget(next, q) == Forget(env, q).(texts := Forget(env, q).texts[p := after[p]]);
          RunWithout(steps[1..], files, q, moved, next, seen.(paths := seen.paths + {p}),
                     seen'.(paths := seen'.paths + {p}));
        case Look(root) =>
          ListingWithout(files, q, moved, root);
          var next := env.(listed := env.listed + Listing(files, root));
          assert Forget(next, q) == Forget(env, q).(listed := Forget(env, q).listed + Listing(after, root));
          RunWithout(steps[1..], files, q, moved, next, seen.(roots := seen.roots + {root}),
                     seen'.(roots := seen'.roots + {root}));
        case Take(root, wanted) =>
          var taken := Taken(files, root, wanted);
          var next := env.(texts := env.texts + (map p | p in taken && p in files :: files[p]));
          TakenWithout(files, q, moved, root, wanted);
          ForgetTaken(env, files, q, moved, taken);
          RunWithout(steps[1..], files, q, moved, next, seen.(paths := seen.paths + taken),
                     seen'.(paths := seen'.paths + Taken(after, root, wanted)));
        case Check(_, test) =>
          assert test(env) == test(Forget(env, q));
          RunWithout(steps[1..], files, q, moved, env, seen, seen');
      }
    }
  }

  lemma ForgetTaken(env: Env, files: Files, q: string, moved: string, taken: set<string>)
    requires q in files && moved !in files && taken <= files.Keys
    ensures
      var after, rest := Moved(files, q, moved), taken - {q};
      Forget(env.(texts := env.texts + (map p | p in taken && p in files :: files[p])), q) ==
        Forget(env, q).(texts := Forget(env, q).texts + (map p | p in rest && p in after :: after[p]))
  {}

  // ---- the image revision program does not depend on the deploy script but for reading it ----

  lemma ForgetKeeps(env: Env, q: string, p: string)
    requires p != q
    ensures Text(Forget(env, q), p) == Text(env, p) && (p in Forget(env, q).listed <==> p in env.listed)
  {}

  lemma ScriptIsNoOther()
    ensures SCRIPT != ".dockerignore" && SCRIPT != "backend/Dockerfile" && SCRIPT != "bun.lock"
    ensures SCRIPT != "config/deploy.yml" && SCRIPT != IMAGE_RELEASE_WORKFLOW && SCRIPT != SIDECAR_DOCKERFILE
    ensures SCRIPT != NATIVE_PROVIDER_INPUT
    ensures forall i :: 0 <= i < |DIRECT_FILE_INPUTS| ==> DIRECT_FILE_INPUTS[i] != SCRIPT
  {
    assert |SCRIPT| == 25 && |".dockerignore"| == 13 && |"backend/Dockerfile"| == 18 && |"bun.lock"| == 8;
    assert |"config/deploy.yml"| == 17 && |IMAGE_RELEASE_WORKFLOW| == 42 && |SIDECAR_DOCKERFILE| == 44;
    assert |NATIVE_PROVIDER_INPUT| == 44 && |DIRECT_FILE_INPUTS[0]| == 44 && |DIRECT_FILE_INPUTS[1]| == 29;
    assert |DIRECT_FILE_INPUTS[2]| == 18 && |DIRECT_FILE_INPUTS[3]| == 46 && |DIRECT_FILE_INPUTS[4]| == 47;
    assert |DIRECT_FILE_INPUTS[5]| == 53;
  }

  lemma BackendIsIndifferent(x: Externals, i: nat)
    requires i < |BackendSteps(x)|
    ensures Indifferent(BackendSteps(x)[i], SCRIPT)
  {
    ScriptIsNoOther();
    if i == 3 {
      var test := BackendSteps(x)[3].test;
      forall env
        ensures test(env) == test(Forget(env, SCRIPT))
      {
        ForgetKeeps(env, SCRIPT, "backend/Dockerfile");
        ForgetKeeps(env, SCRIPT, ".dockerignore");
        ForgetKeeps(env, SCRIPT, NATIVE_PROVIDER_INPUT);
      }
    }
  }

  lemma DeploymentIsIndifferent(x: Externals, i: nat)
    requires i < |DeploymentSteps(x)|
    ensures Indifferent(DeploymentSteps(x)[i], SCRIPT)
  {
    ScriptIsNoOther();
    if i == 1 {
      var test := DeploymentSteps(x)[1].test;
      forall env
        ensures test(env) == test(Forget(env, SCRIPT))
      {
        ForgetKeeps(env, SCRIPT, IMAGE_RELEASE_WORKFLOW);
      }
    }
  }

  lemma SidecarIsIndifferent(x: Externals, i: nat)
    requires i < |SidecarSteps(x)|
    ensures Indifferent(SidecarSteps(x)[i], SCRIPT)
  {
    ScriptIsNoOther();
    if SidecarSteps(x)[i].Check? {
      var test := SidecarSteps(x)[i].test;
      forall env
        ensures test(env) == test(Forget(env, SCRIPT))
      {
        ForgetKeeps(env, SCRIPT, SIDECAR_DOCKERFILE);
        ForgetKeeps(env, SCRIPT, ".dockerignore");
        ForgetKeeps(env, SCRIPT, "bun.lock");
        ForgetKeeps(env, SCRIPT, "config/deploy.yml");
      }
    }
  }

  lemma ProgramIsIndifferent(x: Externals, i: nat)
    requires i < |Program(x)|
    ensures Indifferent(Program(x)[i], SCRIPT)
  {
    var b, d := |BackendSteps(x)|, |DeploymentSteps(x)|;
    if i < b {
      BackendIsIndifferent(x, i);
    } else if i < b + d {
      DeploymentIsIndifferent(x, i - b);
    } else {
      SidecarIsIndifferent(x, i - b - d);
    }
  }

  /** A path outside of the deployed footprint is in no directory the program lists. */
  lemma UncoveredIsAvoided(x: Externals, deployed: Files, moved: string, i: nat)
    requires RunOn(Program(x), deployed).outcome.Ok? && i < |Program(x)|
    requires
      var fp := RunOn(Program(x), deployed).seen;
      !Covered(fp, moved) && moved !in fp.roots
    ensures Avoids(Program(x)[i], moved)
  {
    var steps := Program(x);
    SuccessReadsEverything(steps, deployed, NothingKnown, NothingRead);
    ProgramIsSelfContained(x);
    if steps[i].Look? {
      assert Looks(steps, steps[i].root);
    } else if steps[i].Take? {
      assert steps[i].root in LookRoots(steps);
    }
  }

  /** Moving the script away leaves the program successful, with the script recorded as missing. */
  lemma MovedRun(x: Externals, deployed: Files, moved: string)
    requires RunOn(Program(x), deployed).outcome.Ok? && SCRIPT in deployed && moved !in deployed
    requires
      var fp := RunOn(Program(x), deployed).seen;
      !Covered(fp, moved) && moved !in fp.roots
    ensures
      var run := RunOn(Program(x), Moved(deployed, SCRIPT, moved));
      run.outcome == Ok(Forget(RunOn(Program(x), deployed).outcome.value, SCRIPT))
  {
    forall i | 0 <= i < |Program(x)|
      ensures Indifferent(Program(x)[i], SCRIPT) && Avoids(Program(x)[i], moved)
    {
      ProgramIsIndifferent(x, i);
      UncoveredIsAvoided(x, deployed, moved, i);
    }
    assert Forget(NothingKnown, SCRIPT) == NothingKnown;
    RunWithout(Program(x), deployed, SCRIPT, moved, NothingKnown, NothingRead, NothingRead);
  }

  lemma MovedInputs(x: Externals, deployed: Files, moved: string)
    requires RunOn(Program(x), deployed).outcome.Ok? && SCRIPT in deployed && moved !in deployed
    requires deployed[SCRIPT] != "<missing:" + SCRIPT + ">"
    requires
      var fp := RunOn(Program(x), deployed).seen;
      !Covered(fp, moved) && moved !in fp.roots
    ensures
      var after := Moved(deployed, SCRIPT, moved);
      RunOn(Program(x), after).outcome.Ok? && InputsAt(x, after).deployment != InputsAt(x, deployed).deployment
  {
    MovedRun(x, deployed, moved);
    assert DEPLOYMENT_FILE_INPUTS[2].0 == SCRIPT;
    DeploymentInputsAreFiles(x, deployed, 2);
    var env := RunOn(Program(x), deployed).outcome.value;
    DeploymentKeysDiffer();
    assert DeploymentInputs(x, Forget(env, SCRIPT))[SCRIPT] == "<missing:" + SCRIPT + ">";
  }

  /** For every deployed tree on which the image revisions can be computed and that holds the
      deploy script: moving the script out of the footprint, in a commit listed only under the new
      name, changes the deployment revision and ends the walk in the "no main commit evidence"
      error. */
  lemma RenameHidesTheChange(
      x: Externals, hash: Utf8.Bytes -> string, less: (Utf8.Bytes, Utf8.Bytes) -> bool,
      deployed: Files, moved: string, time: int, now: int)
    requires HashesFrames(x.digest, hash, less) && Injective(hash)
    requires Evaluable(x, deployed) && SCRIPT in deployed && moved !in deployed
    requires deployed[SCRIPT] != "<missing:" + SCRIPT + ">"
    requires
      var fp := RunOn(Program(x), deployed).seen;
      !Covered(fp, moved) && moved !in fp.roots
    ensures
      var h := History(deployed, [Commit(Moved(deployed, SCRIPT, moved), {moved}, time)]);
      && FullLag(ImageReviser(x), h, now) == Behind(0, Age(now, time))
      && FilteredLag(ImageReviser(x), h, now) == NoEvidence
  {
    var after := Moved(deployed, SCRIPT, moved);
    MovedInputs(x, deployed, moved);
    RevisionsTellInputs(x, hash, less, deployed, after);
    SkippedChange(ImageReviser(x), deployed, after, moved, time, now);
  }

  lemma SkippedChange(v: Reviser, deployed: Files, after: Files, moved: string, time: int, now: int)
    requires Evaluate(v, deployed).Ok? && Evaluate(v, after).Ok? && Evaluate(v, deployed) != Evaluate(v, after)
    requires !Covered(RunOn(v.steps, deployed).seen, moved)
    ensures
      var h := History(deployed, [Commit(after, {moved}, time)]);
      FullLag(v, h, now) == Behind(0, Age(now, time)) && FilteredLag(v, h, now) == NoEvidence
  {
    var h := History(deployed, [Commit(after, {moved}, time)]);
    var outs, fp, base := Outcomes(v, h), RunOn(v.steps, deployed).seen, Evaluate(v, deployed).value;
    assert outs == [Evaluate(v, after)];
    assert !Touches(fp, h.commits[0].listed);
    assert FilteredWalk(outs, fp, h, now, base, 1) == NoEvidence;
  }
}
