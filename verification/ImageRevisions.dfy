/** The Clawdi image revisions (scripts/clawdi-image-release-plan.ts): the concrete program and
    the three input maps that are hashed. */
module ImageRevisions {
  import opened Common
  import opened RevisionProgram

  const BACKEND_ROOT := "backend"
  const NATIVE_PROVIDER_INPUT := "packages/shared/src/native-ai-providers.json"
  const NATIVE_PROVIDER_ROOT := "packages/shared/src"
  const IMAGE_RELEASE_WORKFLOW := ".github/workflows/clawdi-image-release.yml"
  const DEPLOY_STEPS_KEY := ".github/workflows/clawdi-image-release.yml#jobs.deploy-vps.steps"
  const CLOSURE_KEY := "bun.lock#whatsapp-sidecar-dependency-closure"
  const ACCESSORY_KEY := "config/deploy.yml#accessories.whatsapp-baileys"
  const SIDECAR_DOCKERFILE := "packages/whatsapp-baileys-sidecar/Dockerfile"
  const SIDECAR_SOURCE_ROOT := "packages/whatsapp-baileys-sidecar/src"

  /** An optional deployment input with its directory. */
  const DEPLOYMENT_FILE_INPUTS: seq<(string, string)> := [
    (".github/actions/setup-bun-ci/action.yml", ".github/actions/setup-bun-ci"),
    ("config/deploy.yml", "config"),
    ("scripts/deploy-backend.sh", "scripts"),
    ("scripts/deploy-whatsapp-sidecar.sh", "scripts")
  ]

  const DIRECT_FILE_INPUTS: seq<string> := [
    "packages/whatsapp-baileys-sidecar/Dockerfile",
    "patches/libsignal@6.0.0.patch",
    "tsconfig.base.json",
    "packages/whatsapp-baileys-sidecar/package.json",
    "packages/whatsapp-baileys-sidecar/tsconfig.json",
    "packages/whatsapp-baileys-sidecar/tsconfig.build.json"
  ]

  predicate IsBackendTest(path: string) {
    "backend/tests/" <= path
  }

  predicate IsSourceTest(path: string) {
    |path| >= 8 && path[|path| - 8..] == ".test.ts"
  }

  /** What is left to others: the two Docker contracts, the parsers and the digest of a map. */
  datatype Externals = Externals(
    backendContract: (string, string, bool) -> bool,
    deploySteps: string -> Option<string>,
    sidecarContract: (string, string, string) -> bool,
    closureText: string -> Option<string>,
    accessory: string -> Option<string>,
    digest: map<string, string> -> string)

  function Text(env: Env, path: string): string {
    if path in env.texts then env.texts[path] else ""
  }

  function OptionalInput(i: nat): seq<Step>
    requires i < |DEPLOYMENT_FILE_INPUTS|
  {
    var (path, directory) := DEPLOYMENT_FILE_INPUTS[i];
    [Look(directory), Take(directory, p => p == path)]
  }

  /** `calculateClawdiImageRevisionsFromSnapshot`, in the order of its reads and checks. */
  function BackendSteps(x: Externals): seq<Step> {
    [ Require(".dockerignore"),
      Look(NATIVE_PROVIDER_ROOT),
      Require("backend/Dockerfile"),
      Check("backend Docker contract", (env: Env) => x.backendContract(
        Text(env, "backend/Dockerfile"), Text(env, ".dockerignore"), NATIVE_PROVIDER_INPUT in env.listed)),
      Take(NATIVE_PROVIDER_ROOT, p => p == NATIVE_PROVIDER_INPUT),
      Look(BACKEND_ROOT),
      Take(BACKEND_ROOT, p => !IsBackendTest(p)) ]
  }

  function DeploymentSteps(x: Externals): seq<Step> {
    [ Require(IMAGE_RELEASE_WORKFLOW),
      Check("deploy-vps steps", (env: Env) => x.deploySteps(Text(env, IMAGE_RELEASE_WORKFLOW)).Some?) ]
    + OptionalInput(0) + OptionalInput(1) + OptionalInput(2) + OptionalInput(3)
  }

  /** `calculateWhatsAppSidecarDeploymentRevisionFromSnapshot`. */
  function SidecarSteps(x: Externals): seq<Step> {
    [ Require(SIDECAR_DOCKERFILE),
      Require("bun.lock"),
      Require(".dockerignore"),
      Check("sidecar Docker contract", (env: Env) => x.sidecarContract(
        Text(env, SIDECAR_DOCKERFILE), Text(env, ".dockerignore"), Text(env, "bun.lock"))),
      Require(DIRECT_FILE_INPUTS[0]), Require(DIRECT_FILE_INPUTS[1]), Require(DIRECT_FILE_INPUTS[2]),
      Require(DIRECT_FILE_INPUTS[3]), Require(DIRECT_FILE_INPUTS[4]), Require(DIRECT_FILE_INPUTS[5]),
      Look(SIDECAR_SOURCE_ROOT),
      Take(SIDECAR_SOURCE_ROOT, p => !IsSourceTest(p)),
      Check("bun.lock closure", (env: Env) => x.closureText(Text(env, "bun.lock")).Some?),
      Require("config/deploy.yml"),
      Check("whatsapp-baileys accessory", (env: Env) => x.accessory(Text(env, "config/deploy.yml")).Some?) ]
  }

  function Program(x: Externals): seq<Step> {
    BackendSteps(x) + DeploymentSteps(x) + SidecarSteps(x)
  }

  // ---- the three input maps of a successful run ----

  function BackendInputs(env: Env): map<string, string> {
    map p | p in env.texts &&
        (p == ".dockerignore" || p == NATIVE_PROVIDER_INPUT || (Under(BACKEND_ROOT, p) && !IsBackendTest(p)))
      :: env.texts[p]
  }

  function OptionalText(env: Env, path: string): string {
    if path in env.texts then env.texts[path] else "<missing:" + path + ">"
  }

  function ValueOf(o: Option<string>): string {
    if o.Some? then o.value else ""
  }

  function DeploymentInputs(x: Externals, env: Env): map<string, string> {
    map[ DEPLOY_STEPS_KEY := ValueOf(x.deploySteps(Text(env, IMAGE_RELEASE_WORKFLOW))),
         DEPLOYMENT_FILE_INPUTS[0].0 := OptionalText(env, DEPLOYMENT_FILE_INPUTS[0].0),
         DEPLOYMENT_FILE_INPUTS[1].0 := OptionalText(env, DEPLOYMENT_FILE_INPUTS[1].0),
         DEPLOYMENT_FILE_INPUTS[2].0 := OptionalText(env, DEPLOYMENT_FILE_INPUTS[2].0),
         DEPLOYMENT_FILE_INPUTS[3].0 := OptionalText(env, DEPLOYMENT_FILE_INPUTS[3].0) ]
  }

  function SidecarInputs(x: Externals, env: Env): map<string, string> {
    (map p | p in env.texts && (p in DIRECT_FILE_INPUTS || (Under(SIDECAR_SOURCE_ROOT, p) && !IsSourceTest(p)))
       :: env.texts[p])
    + map[ CLOSURE_KEY := ValueOf(x.closureText(Text(env, "bun.lock"))),
           ACCESSORY_KEY := ValueOf(x.accessory(Text(env, "config/deploy.yml"))) ]
  }

  datatype Revisions = Revisions(backend: string, deployment: string, sidecar: string)

  function RevisionsOf(x: Externals, env: Env): Revisions {
    Revisions(x.digest(BackendInputs(env)), x.digest(DeploymentInputs(x, env)), x.digest(SidecarInputs(x, env)))
  }

  /** A revision program with the revisions it computes from what it read; `deploymentLag`
      takes one as its `revisions` option. */
  datatype Reviser = Reviser(steps: seq<Step>, finish: Env -> Revisions)

  function Evaluate(v: Reviser, files: Files): Result<Revisions, Failure> {
    match RunOn(v.steps, files).outcome
    case Ok(env) => Ok(v.finish(env))
    case Err(f) => Err(f)
  }

  /** `calculateClawdiImageRevisionsFromSnapshot`. */
  function ImageReviser(x: Externals): Reviser {
    Reviser(Program(x), env => RevisionsOf(x, env))
  }

  /** `classifyClawdiImageRelease`. */
  predicate ReleaseRequired(base: Revisions, head: Revisions) {
    base.backend != head.backend || base.deployment != head.deployment || base.sidecar != head.sidecar
  }

  ghost predicate SelfContained(steps: seq<Step>) {
    TakesFromLooks(steps, LookRoots(steps))
  }

  lemma SelfContainedAppends(a: seq<Step>, b: seq<Step>)
    requires SelfContained(a) && SelfContained(b)
    ensures SelfContained(a + b)
  {
    forall i | 0 <= i < |a + b| && (a + b)[i].Take?
      ensures (a + b)[i].root in LookRoots(a + b)
    {
      var root := (a + b)[i].root;
      if i < |a| {
        var j :| 0 <= j < |a| && a[j] == Look(root);
        assert (a + b)[j] == Look(root);
      } else {
        assert b[i - |a|].root in LookRoots(b);
        var j :| 0 <= j < |b| && b[j] == Look(root);
        assert (a + b)[|a| + j] == Look(root);
      }
    }
  }

  lemma OptionalInputIsSelfContained(i: nat)
    requires i < |DEPLOYMENT_FILE_INPUTS|
    ensures SelfContained(OptionalInput(i))
  {
    var steps := OptionalInput(i);
    assert steps[0] == Look(steps[1].root);
  }

  /** The program takes files only from directories it lists. */
  lemma ProgramIsSelfContained(x: Externals)
    ensures SelfContained(Program(x))
  {
    var b, s := BackendSteps(x), SidecarSteps(x);
    assert SelfContained(b) by {
      assert b[1] == Look(NATIVE_PROVIDER_ROOT) && b[5] == Look(BACKEND_ROOT);
    }
    assert SelfContained(s) by {
      assert s[10] == Look(SIDECAR_SOURCE_ROOT);
    }
    DeploymentIsSelfContained(x);
    SelfContainedAppends(b, DeploymentSteps(x));
    SelfContainedAppends(b + DeploymentSteps(x), s);
  }

  lemma DeploymentIsSelfContained(x: Externals)
    ensures SelfContained(DeploymentSteps(x))
  {
    var d := DeploymentSteps(x)[..2];
    assert SelfContained(d);
    OptionalInputIsSelfContained(0);
    OptionalInputIsSelfContained(1);
    OptionalInputIsSelfContained(2);
    OptionalInputIsSelfContained(3);
    SelfContainedAppends(d, OptionalInput(0));
    SelfContainedAppends(d + OptionalInput(0), OptionalInput(1));
    SelfContainedAppends(d + OptionalInput(0) + OptionalInput(1), OptionalInput(2));
    SelfContainedAppends(d + OptionalInput(0) + OptionalInput(1) + OptionalInput(2), OptionalInput(3));
    assert DeploymentSteps(x) == d + OptionalInput(0) + OptionalInput(1) + OptionalInput(2) + OptionalInput(3);
  }

  // ---- which files the revisions are of ----

  /** The file is read by the `i`-th step of the program. */
  lemma ProgramReads(x: Externals, files: Files, i: nat, p: string)
    requires RunOn(Program(x), files).outcome.Ok?
    requires i < |Program(x)| && IsRead(Program(x)[i], files, p)
    ensures p in RunOn(Program(x), files).outcome.value.texts
  {
    StepIsRead(Program(x), files, NothingKnown, NothingRead, i, p);
  }

  /** The backend revision is of `.dockerignore`, the native provider list if there is one, and
      every file under `backend` but its tests, each with its text. */
  lemma BackendInputsAreFiles(x: Externals, files: Files, p: string)
    requires RunOn(Program(x), files).outcome.Ok?
    ensures
      var inputs := BackendInputs(RunOn(Program(x), files).outcome.value);
      && (p in inputs <==>
            && p in files
            && (|| p == ".dockerignore"
                || p == "packages/shared/src/native-ai-providers.json"
                || ((p == "backend" || "backend/" <= p) && !("backend/tests/" <= p))))
      && (p in inputs ==> inputs[p] == files[p])
  {
    SuccessIsBacked(Program(x), files, NothingKnown, NothingRead);
    assert BACKEND_ROOT + "/" == "backend/";
    if p == ".dockerignore" {
      BackendStepAt(x, 0);
      ProgramReads(x, files, 0, p);
    } else if p == NATIVE_PROVIDER_INPUT && p in files {
      NativeProvidersAreRead(x, files);
    } else if p in files && Under(BACKEND_ROOT, p) && !IsBackendTest(p) {
      BackendFileIsRead(x, files, p);
    }
  }

  lemma BackendStepAt(x: Externals, i: nat)
    requires i < 7
    ensures |BackendSteps(x)| == 7 && i < |Program(x)| && Program(x)[i] == BackendSteps(x)[i]
  {
  }

  lemma NativeProvidersAreRead(x: Externals, files: Files)
    requires RunOn(Program(x), files).outcome.Ok? && NATIVE_PROVIDER_INPUT in files
    ensures NATIVE_PROVIDER_INPUT in RunOn(Program(x), files).outcome.value.texts
  {
    BackendStepAt(x, 4);
    NativeProviderDirectory();
    ProgramReads(x, files, 4, NATIVE_PROVIDER_INPUT);
  }

  lemma NativeProviderDirectory()
    ensures Under(NATIVE_PROVIDER_ROOT, NATIVE_PROVIDER_INPUT)
  {
    assert NATIVE_PROVIDER_ROOT + "/" <= NATIVE_PROVIDER_INPUT;
  }

  lemma BackendFileIsRead(x: Externals, files: Files, p: string)
    requires RunOn(Program(x), files).outcome.Ok? && p in files && Under(BACKEND_ROOT, p) && !IsBackendTest(p)
    ensures p in RunOn(Program(x), files).outcome.value.texts
  {
    BackendStepAt(x, 6);
    ProgramReads(x, files, 6, p);
  }

  lemma OptionalInputIsFile(x: Externals, files: Files, i: nat)
    requires RunOn(Program(x), files).outcome.Ok? && i < |DEPLOYMENT_FILE_INPUTS|
    requires var (path, directory) := DEPLOYMENT_FILE_INPUTS[i]; Under(directory, path)
    ensures
      var path := DEPLOYMENT_FILE_INPUTS[i].0;
      OptionalText(RunOn(Program(x), files).outcome.value, path) ==
        if path in files then files[path] else "<missing:" + path + ">"
  {
    SuccessIsBacked(Program(x), files, NothingKnown, NothingRead);
    var path := DEPLOYMENT_FILE_INPUTS[i].0;
    if path in files {
      DeploymentStepAt(x, i);
      ProgramReads(x, files, 10 + 2 * i, path);
    }
  }

  lemma DeploymentStepAt(x: Externals, i: nat)
    requires i < |DEPLOYMENT_FILE_INPUTS|
    ensures |Program(x)| == 32 && Program(x)[10 + 2 * i] == OptionalInput(i)[1]
  {
    var d := DeploymentSteps(x);
    assert |BackendSteps(x)| == 7 && |d| == 10 && |SidecarSteps(x)| == 15;
    assert d[3] == OptionalInput(0)[1] && d[5] == OptionalInput(1)[1];
    assert d[7] == OptionalInput(2)[1] && d[9] == OptionalInput(3)[1];
    assert Program(x)[10 + 2 * i] == d[3 + 2 * i];
  }

  /** The deployment revision is of the deploy job's steps, which the snapshot must define. */
  lemma DeploySteps(x: Externals, files: Files)
    requires RunOn(Program(x), files).outcome.Ok?
    ensures
      var inputs := DeploymentInputs(x, RunOn(Program(x), files).outcome.value);
      && IMAGE_RELEASE_WORKFLOW in files && DEPLOY_STEPS_KEY in inputs
      && x.deploySteps(files[IMAGE_RELEASE_WORKFLOW]) == Some(inputs[DEPLOY_STEPS_KEY])
  {
    WorkflowIsRead(x, files);
    DeploymentKeysDiffer();
  }

  /** And it is of the four files the job invokes, a missing one being recorded as missing. */
  lemma DeploymentInputsAreFiles(x: Externals, files: Files, i: nat)
    requires RunOn(Program(x), files).outcome.Ok? && i < |DEPLOYMENT_FILE_INPUTS|
    ensures
      var inputs := DeploymentInputs(x, RunOn(Program(x), files).outcome.value);
      var path := DEPLOYMENT_FILE_INPUTS[i].0;
      path in inputs && inputs[path] == if path in files then files[path] else "<missing:" + path + ">"
  {
    InputDirectory(i);
    OptionalInputIsFile(x, files, i);
    DeploymentKeysDiffer();
  }

  lemma InputDirectory(i: nat)
    requires i < |DEPLOYMENT_FILE_INPUTS|
    ensures Under(DEPLOYMENT_FILE_INPUTS[i].1, DEPLOYMENT_FILE_INPUTS[i].0)
  {
    var (path, directory) := DEPLOYMENT_FILE_INPUTS[i];
    assert directory + "/" <= path;
  }

  lemma DeploymentKeysDiffer()
    ensures forall i, j :: 0 <= i < j < |DEPLOYMENT_FILE_INPUTS| ==>
      DEPLOYMENT_FILE_INPUTS[i].0 != DEPLOYMENT_FILE_INPUTS[j].0
    ensures forall i :: 0 <= i < |DEPLOYMENT_FILE_INPUTS| ==>
      DEPLOYMENT_FILE_INPUTS[i].0 != DEPLOY_STEPS_KEY
  {
    assert |DEPLOYMENT_FILE_INPUTS[0].0| == 39 && |DEPLOYMENT_FILE_INPUTS[1].0| == 17;
    assert |DEPLOYMENT_FILE_INPUTS[2].0| == 25 && |DEPLOYMENT_FILE_INPUTS[3].0| == 34;
    assert |DEPLOY_STEPS_KEY| == 64;
  }

  /** The workflow was read and its deploy steps extracted. */
  lemma WorkflowIsRead(x: Externals, files: Files)
    requires RunOn(Program(x), files).outcome.Ok?
    ensures IMAGE_RELEASE_WORKFLOW in files && x.deploySteps(files[IMAGE_RELEASE_WORKFLOW]).Some?
    ensures Text(RunOn(Program(x), files).outcome.value, IMAGE_RELEASE_WORKFLOW) == files[IMAGE_RELEASE_WORKFLOW]
  {
    var steps := Program(x);
    SuccessIsBacked(steps, files, NothingKnown, NothingRead);
    assert steps[7] == Require(IMAGE_RELEASE_WORKFLOW) && steps[8] == DeploymentSteps(x)[1];
    assert IsRead(steps[7], files, IMAGE_RELEASE_WORKFLOW);
    ProgramReads(x, files, 7, IMAGE_RELEASE_WORKFLOW);
    var mid := CheckPassed(steps, files, NothingKnown, NothingRead, 8, IMAGE_RELEASE_WORKFLOW);
    assert Text(mid, IMAGE_RELEASE_WORKFLOW) == files[IMAGE_RELEASE_WORKFLOW];
  }

  lemma SidecarStepAt(x: Externals, i: nat)
    requires i < 15
    ensures |Program(x)| == 32 && |SidecarSteps(x)| == 15 && Program(x)[17 + i] == SidecarSteps(x)[i]
  {
    assert |BackendSteps(x)| == 7 && |DeploymentSteps(x)| == 10;
  }

  ghost predicate EndsIn(p: string, suffix: string) {
    exists base :: p == base + suffix
  }

  lemma SourceTestEnds(p: string)
    ensures IsSourceTest(p) <==> EndsIn(p, ".test.ts")
  {
    if IsSourceTest(p) {
      assert p == p[..|p| - 8] + ".test.ts";
    }
  }

  /** The sidecar revision is of its six direct inputs, which must exist, and of its sources but
      their tests. */
  lemma SidecarInputsAreFiles(x: Externals, files: Files, p: string)
    requires RunOn(Program(x), files).outcome.Ok? && p != CLOSURE_KEY && p != ACCESSORY_KEY
    ensures
      var inputs := SidecarInputs(x, RunOn(Program(x), files).outcome.value);
      && (p in inputs <==>
            p in files && (p in DIRECT_FILE_INPUTS || (Under(SIDECAR_SOURCE_ROOT, p) && !EndsIn(p, ".test.ts"))))
      && (p in DIRECT_FILE_INPUTS ==> p in files)
      && (p in inputs ==> inputs[p] == files[p])
  {
    SuccessIsBacked(Program(x), files, NothingKnown, NothingRead);
    SourceTestEnds(p);
    if p in DIRECT_FILE_INPUTS {
      var i :| 0 <= i < |DIRECT_FILE_INPUTS| && DIRECT_FILE_INPUTS[i] == p;
      DirectInputIsRead(x, files, i);
    } else if p in files && Under(SIDECAR_SOURCE_ROOT, p) && !IsSourceTest(p) {
      SourceIsRead(x, files, p);
    }
  }

  lemma DirectInputIsRead(x: Externals, files: Files, i: nat)
    requires RunOn(Program(x), files).outcome.Ok? && i < |DIRECT_FILE_INPUTS|
    ensures DIRECT_FILE_INPUTS[i] in RunOn(Program(x), files).outcome.value.texts
  {
    SidecarStepAt(x, 4 + i);
    assert SidecarSteps(x)[4 + i] == Require(DIRECT_FILE_INPUTS[i]);
    ProgramReads(x, files, 21 + i, DIRECT_FILE_INPUTS[i]);
  }

  lemma SourceIsRead(x: Externals, files: Files, p: string)
    requires RunOn(Program(x), files).outcome.Ok?
    requires p in files && Under(SIDECAR_SOURCE_ROOT, p) && !IsSourceTest(p)
    ensures p in RunOn(Program(x), files).outcome.value.texts
  {
    SidecarStepAt(x, 11);
    ProgramReads(x, files, 28, p);
  }

  /** And of the dependency closure and the accessory, both of which the snapshot must define. */
  lemma SidecarExtracts(x: Externals, files: Files)
    requires RunOn(Program(x), files).outcome.Ok?
    ensures
      var inputs := SidecarInputs(x, RunOn(Program(x), files).outcome.value);
      && CLOSURE_KEY in inputs && ACCESSORY_KEY in inputs
      && "bun.lock" in files && x.closureText(files["bun.lock"]) == Some(inputs[CLOSURE_KEY])
      && "config/deploy.yml" in files && x.accessory(files["config/deploy.yml"]) == Some(inputs[ACCESSORY_KEY])
  {
    assert |CLOSURE_KEY| == 44 && |ACCESSORY_KEY| == 46;
    ClosureIsRead(x, files);
    AccessoryIsRead(x, files);
  }

  lemma ClosureIsRead(x: Externals, files: Files)
    requires RunOn(Program(x), files).outcome.Ok?
    ensures "bun.lock" in files && x.closureText(files["bun.lock"]).Some?
    ensures Text(RunOn(Program(x), files).outcome.value, "bun.lock") == files["bun.lock"]
  {
    SidecarStepAt(x, 1);
    SidecarStepAt(x, 12);
    ReadThenChecked(x, files, "bun.lock", 18, 29);
    var mid := CheckPassed(Program(x), files, NothingKnown, NothingRead, 29, "bun.lock");
    assert Text(mid, "bun.lock") == files["bun.lock"];
  }

  lemma AccessoryIsRead(x: Externals, files: Files)
    requires RunOn(Program(x), files).outcome.Ok?
    ensures "config/deploy.yml" in files && x.accessory(files["config/deploy.yml"]).Some?
    ensures Text(RunOn(Program(x), files).outcome.value, "config/deploy.yml") == files["config/deploy.yml"]
  {
    SidecarStepAt(x, 13);
    SidecarStepAt(x, 14);
    ReadThenChecked(x, files, "config/deploy.yml", 30, 31);
    var mid := CheckPassed(Program(x), files, NothingKnown, NothingRead, 31, "config/deploy.yml");
    assert Text(mid, "config/deploy.yml") == files["config/deploy.yml"];
  }

  lemma ReadThenChecked(x: Externals, files: Files, path: string, i: nat, k: nat)
    requires RunOn(Program(x), files).outcome.Ok? && i < k < |Program(x)| && Program(x)[i] == Require(path)
    ensures path in files && Text(RunOn(Program(x), files).outcome.value, path) == files[path]
    ensures IsRead(Program(x)[i], files, path)
    ensures exists j :: 0 <= j < k && IsRead(Program(x)[j], files, path)
  {
    SuccessIsBacked(Program(x), files, NothingKnown, NothingRead);
    ProgramReads(x, files, i, path);
  }

  /** Footprint soundness of the revisions: snapshots that agree on the files covered by a
      successful run have the same revisions, or fail the same way, and no snapshot is read
      outside of that cover. */
  lemma RevisionsDependOnFootprint(v: Reviser, deployed: Files, s: Files, t: Files)
    requires SelfContained(v.steps) && Evaluate(v, deployed).Ok?
    requires
      var fp := RunOn(v.steps, deployed).seen;
      RootsAreDirectories(fp, s) && RootsAreDirectories(fp, t) && AgreeOnCovered(fp, s, t)
    ensures Evaluate(v, s) == Evaluate(v, t)
    ensures ReadsCovered(RunOn(v.steps, deployed).seen, RunOn(v.steps, s).seen)
  {
    FootprintIsSound(v.steps, deployed, s, t);
  }
}
