/** A run of the revision program without the order of its steps: what is known before each step
    in closed form, and exactly which snapshots have image revisions. */
module ProgramRuns {
  import opened Common
  import opened RevisionProgram
  import opened ImageRevisions

  ghost predicate ReadBefore(steps: seq<Step>, files: Files, i: nat, p: string)
    requires i <= |steps|
  {
    exists j :: 0 <= j < i && IsRead(steps[j], files, p)
  }

  ghost predicate ListedBefore(steps: seq<Step>, files: Files, i: nat, p: string)
    requires i <= |steps|
  {
    exists j :: 0 <= j < i && steps[j].Look? && Under(steps[j].root, p)
  }

  /** What a run that came as far as the `i`-th step knows: the files read before it, each with its
      text, and the files of the directories listed before it. */
  ghost function Known(steps: seq<Step>, files: Files, i: nat): Env
    requires i <= |steps|
  {
    Env(map p | p in files && ReadBefore(steps, files, i, p) :: files[p],
        set p | p in files && ListedBefore(steps, files, i, p))
  }

  /** A step goes through when its required file exists and its contract accepts what is known. */
  ghost predicate Passes(steps: seq<Step>, files: Files, i: nat)
    requires i < |steps|
  {
    match steps[i]
    case Require(p) => p in files
    case Check(_, test) => test(Known(steps, files, i))
    case _ => true
  }

  ghost function FailureOf(step: Step): Failure
    requires step.Require? || step.Check?
  {
    if step.Require? then Unreadable(step.path) else Rejected(step.name)
  }

  /** The first step from the `i`-th on that does not go through. */
  ghost predicate FailsFirst(steps: seq<Step>, files: Files, i: nat, k: nat) {
    i <= k < |steps| && !Passes(steps, files, k) && forall h :: i <= h < k ==> Passes(steps, files, h)
  }

  lemma ReadByNext(steps: seq<Step>, files: Files, i: nat, p: string)
    requires i < |steps|
    ensures ReadBefore(steps, files, i + 1, p) <==> ReadBefore(steps, files, i, p) || IsRead(steps[i], files, p)
    ensures ListedBefore(steps, files, i + 1, p) <==>
      ListedBefore(steps, files, i, p) || (steps[i].Look? && Under(steps[i].root, p))
  {
  }

  lemma KnownNext(steps: seq<Step>, files: Files, i: nat)
    requires i < |steps| && Passes(steps, files, i)
    ensures
      var env, next := Known(steps, files, i), Known(steps, files, i + 1);
      match steps[i]
      case Require(p) => next == env.(texts := env.texts[p := files[p]])
      case Look(root) => next == env.(listed := env.listed + Listing(files, root))
      case Take(root, wanted) =>
        next == env.(texts := env.texts + (map p | p in Taken(files, root, wanted) && p in files :: files[p]))
      case Check(_, _) => next == env
  {
    forall p
      ensures ReadBefore(steps, files, i + 1, p) <==> ReadBefore(steps, files, i, p) || IsRead(steps[i], files, p)
      ensures ListedBefore(steps, files, i + 1, p) <==>
        ListedBefore(steps, files, i, p) || (steps[i].Look? && Under(steps[i].root, p))
    {
      ReadByNext(steps, files, i, p);
    }
  }

  /** A run goes on from each step that passes with what is known before the next. */
  lemma StepPasses(steps: seq<Step>, files: Files, i: nat, seen: Footprint) returns (after: Footprint)
    requires i < |steps| && Passes(steps, files, i)
    ensures Execute(steps[i..], files, Known(steps, files, i), seen) ==
      Execute(steps[i + 1..], files, Known(steps, files, i + 1), after)
  {
    KnownNext(steps, files, i);
    assert steps[i..][1..] == steps[i + 1..];
    match steps[i] {
      case Require(p) => after := seen.(paths := seen.paths + {p});
      case Look(root) => after := seen.(roots := seen.roots + {root});
      case Take(root, wanted) => after := seen.(paths := seen.paths + Taken(files, root, wanted));
      case Check(_, _) => after := seen;
    }
  }

  lemma {:induction false} RunFrom(steps: seq<Step>, files: Files, i: nat, seen: Footprint)
    requires i <= |steps|
    ensures
      var outcome := Execute(steps[i..], files, Known(steps, files, i), seen).outcome;
      && (outcome.Ok? <==> forall k :: i <= k < |steps| ==> Passes(steps, files, k))
      && (outcome.Ok? ==> outcome.value == Known(steps, files, |steps|))
      && (outcome.Err? ==> exists k: nat :: FailsFirst(steps, files, i, k) && outcome.error == FailureOf(steps[k]))
    decreases |steps| - i
  {
    if i < |steps| && Passes(steps, files, i) {
      var after := StepPasses(steps, files, i, seen);
      RunFrom(steps, files, i + 1, after);
    } else if i < |steps| {
      assert steps[i..][0] == steps[i];
    }
  }

  /** A run succeeds exactly when every step passes on what the snapshot itself says, and then knows
      every file that some step reads; otherwise it fails at the first step that does not pass. */
  lemma RunSucceedsExactlyWhen(steps: seq<Step>, files: Files)
    ensures
      var outcome := RunOn(steps, files).outcome;
      && (outcome.Ok? <==> forall k :: 0 <= k < |steps| ==> Passes(steps, files, k))
      && (outcome.Ok? ==> outcome.value == Known(steps, files, |steps|))
      && (outcome.Err? ==> exists k: nat :: FailsFirst(steps, files, 0, k) && outcome.error == FailureOf(steps[k]))
  {
    RunFrom(steps, files, 0, NothingRead);
    assert steps[0..] == steps;
    assert Known(steps, files, 0) == NothingKnown;
  }

  // ---- which snapshots have image revisions ----

  /** The files without which there are no image revisions. */
  ghost predicate HasRequired(files: Files) {
    && ".dockerignore" in files && "backend/Dockerfile" in files && "bun.lock" in files && "config/deploy.yml" in files
    && ".github/workflows/clawdi-image-release.yml" in files
    && "packages/whatsapp-baileys-sidecar/Dockerfile" in files
    && "patches/libsignal@6.0.0.patch" in files && "tsconfig.base.json" in files
    && "packages/whatsapp-baileys-sidecar/package.json" in files
    && "packages/whatsapp-baileys-sidecar/tsconfig.json" in files
    && "packages/whatsapp-baileys-sidecar/tsconfig.build.json" in files
  }

  /** The five contracts, each over the snapshot's own texts. */
  ghost predicate MeetsContracts(x: Externals, files: Files)
    requires HasRequired(files)
  {
    && x.backendContract(files["backend/Dockerfile"], files[".dockerignore"],
                         "packages/shared/src/native-ai-providers.json" in files)
    && x.deploySteps(files[".github/workflows/clawdi-image-release.yml"]).Some?
    && x.sidecarContract(files["packages/whatsapp-baileys-sidecar/Dockerfile"], files[".dockerignore"],
                         files["bun.lock"])
    && x.closureText(files["bun.lock"]).Some?
    && x.accessory(files["config/deploy.yml"]).Some?
  }

  lemma StepsOf(x: Externals)
    ensures
      var s := Program(x);
      && |s| == 32
      && s[..4] == BackendSteps(x)[..4] && s[4..7] == BackendSteps(x)[4..]
      && s[7..9] == DeploymentSteps(x)[..2]
      && s[17..] == SidecarSteps(x)
      && (forall k :: 9 <= k < 17 ==> s[k].Look? || s[k].Take?)
  {
    var d := DeploymentSteps(x);
    assert |BackendSteps(x)| == 7 && |d| == 10 && |SidecarSteps(x)| == 15;
    forall k | 9 <= k < 17
      ensures Program(x)[k].Look? || Program(x)[k].Take?
    {
      assert Program(x)[k] == d[k - 7];
      assert d[k - 7] == OptionalInput((k - 9) / 2)[(k - 9) % 2];
    }
  }

  /** The steps that can fail. */
  ghost predicate CanFail(k: nat) {
    k in {0, 2, 3, 7, 8, 17, 18, 19, 20, 21, 22, 23, 24, 25, 26, 29, 30, 31}
  }

  lemma RequiredBySidecar(x: Externals)
    ensures
      var s := SidecarSteps(x);
      && |s| == 15
      && s[0] == s[4] == Require("packages/whatsapp-baileys-sidecar/Dockerfile") && s[1] == Require("bun.lock")
      && s[2] == Require(".dockerignore") && s[13] == Require("config/deploy.yml")
      && s[5] == Require("patches/libsignal@6.0.0.patch") && s[6] == Require("tsconfig.base.json")
      && s[7] == Require("packages/whatsapp-baileys-sidecar/package.json")
      && s[8] == Require("packages/whatsapp-baileys-sidecar/tsconfig.json")
      && s[9] == Require("packages/whatsapp-baileys-sidecar/tsconfig.build.json")
  {
  }

  lemma SidecarStepsFollow(x: Externals)
    ensures |Program(x)| == 32 && |SidecarSteps(x)| == 15
    ensures forall k :: 0 <= k < 15 ==> Program(x)[17 + k] == SidecarSteps(x)[k]
  {
    StepsOf(x);
    var s := Program(x);
    assert forall k :: 0 <= k < 15 ==> s[17..][k] == s[17 + k];
  }

  /** Where the program requires a file. */
  lemma RequiredSteps(x: Externals)
    ensures |Program(x)| == 32 && |SidecarSteps(x)| == 15
    ensures forall k :: 0 <= k < 15 ==> Program(x)[17 + k] == SidecarSteps(x)[k]
    ensures
      var s := Program(x);
      && s[0] == Require(".dockerignore") && s[2] == Require("backend/Dockerfile")
      && s[7] == Require(".github/workflows/clawdi-image-release.yml")
  {
    SidecarStepsFollow(x);
    StepsOf(x);
    var s := Program(x);
    assert s[0] == s[..4][0] && s[2] == s[..4][2] && s[7] == s[7..9][0];
  }

  lemma OtherSteps(x: Externals, k: nat)
    requires k < 32 && !CanFail(k)
    ensures |Program(x)| == 32 && (Program(x)[k].Look? || Program(x)[k].Take?)
  {
    StepsOf(x);
    var s := Program(x);
    if k < 4 {
      assert s[k] == s[..4][k];
    } else if k < 7 {
      assert s[k] == s[4..7][k - 4];
    } else if k >= 17 {
      assert s[k] == s[17..][k - 17];
    }
  }

  lemma RequiredIsKnown(x: Externals, files: Files, j: nat, i: nat, p: string)
    requires j < i <= |Program(x)| && Program(x)[j] == Require(p) && p in files
    ensures Text(Known(Program(x), files, i), p) == files[p]
  {
    assert IsRead(Program(x)[j], files, p);
    assert ReadBefore(Program(x), files, i, p);
  }

  lemma BackendCheck(x: Externals, files: Files)
    requires HasRequired(files)
    ensures |Program(x)| == 32
    ensures Passes(Program(x), files, 3) <==>
      x.backendContract(files["backend/Dockerfile"], files[".dockerignore"],
                        "packages/shared/src/native-ai-providers.json" in files)
  {
    var s := Program(x);
    RequiredSteps(x);
    StepsOf(x);
    assert s[3] == s[..4][3] && s[1] == s[..4][1];
    RequiredIsKnown(x, files, 0, 3, ".dockerignore");
    RequiredIsKnown(x, files, 2, 3, "backend/Dockerfile");
    NativeProviderDirectory();
    assert s[1].Look? && Under(s[1].root, NATIVE_PROVIDER_INPUT);
    assert ListedBefore(s, files, 3, NATIVE_PROVIDER_INPUT);
  }

  lemma DeployCheck(x: Externals, files: Files)
    requires HasRequired(files)
    ensures |Program(x)| == 32
    ensures Passes(Program(x), files, 8) <==>
      x.deploySteps(files[".github/workflows/clawdi-image-release.yml"]).Some?
  {
    var s := Program(x);
    RequiredSteps(x);
    StepsOf(x);
    assert s[8] == s[7..9][1];
    RequiredIsKnown(x, files, 7, 8, IMAGE_RELEASE_WORKFLOW);
  }

  lemma SidecarTexts(x: Externals, files: Files)
    requires HasRequired(files)
    ensures |Program(x)| == 32
    ensures
      var env := Known(Program(x), files, 20);
      && Text(env, SIDECAR_DOCKERFILE) == files["packages/whatsapp-baileys-sidecar/Dockerfile"]
      && Text(env, "bun.lock") == files["bun.lock"] && Text(env, ".dockerignore") == files[".dockerignore"]
  {
    SidecarStepAt(x, 0);
    SidecarStepAt(x, 1);
    SidecarStepAt(x, 2);
    RequiredIsKnown(x, files, 17, 20, SIDECAR_DOCKERFILE);
    RequiredIsKnown(x, files, 18, 20, "bun.lock");
    RequiredIsKnown(x, files, 19, 20, ".dockerignore");
  }

  lemma SidecarContractCheck(x: Externals, files: Files)
    requires HasRequired(files)
    ensures |Program(x)| == 32
    ensures Passes(Program(x), files, 20) <==>
      x.sidecarContract(files["packages/whatsapp-baileys-sidecar/Dockerfile"], files[".dockerignore"],
                        files["bun.lock"])
  {
    SidecarTexts(x, files);
    SidecarStepAt(x, 3);
  }

  lemma ClosureCheck(x: Externals, files: Files)
    requires HasRequired(files)
    ensures |Program(x)| == 32
    ensures Passes(Program(x), files, 29) <==> x.closureText(files["bun.lock"]).Some?
  {
    SidecarStepAt(x, 1);
    SidecarStepAt(x, 12);
    RequiredIsKnown(x, files, 18, 29, "bun.lock");
  }

  lemma AccessoryCheck(x: Externals, files: Files)
    requires HasRequired(files)
    ensures |Program(x)| == 32
    ensures Passes(Program(x), files, 31) <==> x.accessory(files["config/deploy.yml"]).Some?
  {
    SidecarStepAt(x, 13);
    SidecarStepAt(x, 14);
    RequiredIsKnown(x, files, 30, 31, "config/deploy.yml");
  }

  lemma EveryCheck(x: Externals, files: Files)
    requires HasRequired(files)
    ensures |Program(x)| == 32
    ensures MeetsContracts(x, files) <==> forall k :: k in {3, 8, 20, 29, 31} ==> Passes(Program(x), files, k)
  {
    BackendCheck(x, files);
    DeployCheck(x, files);
    SidecarContractCheck(x, files);
    ClosureCheck(x, files);
    AccessoryCheck(x, files);
  }

  /** A snapshot has image revisions exactly when the eleven required files are there and the five
      contracts accept them. */
  lemma RevisionsExistExactlyWhen(x: Externals, files: Files)
    ensures Evaluate(ImageReviser(x), files).Ok? <==> HasRequired(files) && MeetsContracts(x, files)
  {
    var s := Program(x);
    RunSucceedsExactlyWhen(s, files);
    RequiredSteps(x);
    if forall k :: 0 <= k < |s| ==> Passes(s, files, k) {
      RequiredFilesAreThere(x, files);
    }
    if HasRequired(files) {
      EveryCheck(x, files);
      if MeetsContracts(x, files) {
        EveryStepPasses(x, files);
      }
    }
  }

  lemma RequiredFilesAreThere(x: Externals, files: Files)
    requires forall k :: 0 <= k < |Program(x)| ==> Passes(Program(x), files, k)
    ensures HasRequired(files)
  {
    RequiredSteps(x);
    RequiredBySidecar(x);
    var s := Program(x);
    assert Passes(s, files, 0) && Passes(s, files, 2) && Passes(s, files, 7) && Passes(s, files, 17);
    assert Passes(s, files, 18) && Passes(s, files, 30) && Passes(s, files, 22) && Passes(s, files, 23);
    assert Passes(s, files, 24) && Passes(s, files, 25) && Passes(s, files, 26);
  }

  lemma EveryStepPasses(x: Externals, files: Files)
    requires HasRequired(files) && MeetsContracts(x, files)
    ensures forall k :: 0 <= k < |Program(x)| ==> Passes(Program(x), files, k)
  {
    RequiredSteps(x);
    RequiredBySidecar(x);
    EveryCheck(x, files);
    forall k | 0 <= k < 32
      ensures Passes(Program(x), files, k)
    {
      if !CanFail(k) {
        OtherSteps(x, k);
      }
    }
  }
}
