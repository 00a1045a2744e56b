/** What a release is of: the image revisions of a snapshot in terms of its files, its deploy job and
    its dependency closure (scripts/clawdi-image-release-plan.ts,
    scripts/whatsapp-sidecar-deployment-revision.ts), with everything but the parsers, the Docker
    contracts and the hash in place. */
module ReleaseContent {
  import opened Common
  import opened RevisionProgram
  import opened ImageRevisions
  import opened DeploymentLag
  import opened RevisionDigest
  import opened CanonicalJson
  import opened DependencyClosure
  import LockFile
  import opened DeployWorkflow
  import opened Utf16
  import Utf8

  /** The YAML and JSONC parsers; either may throw. */
  datatype Parsers = Parsers(yaml: string -> Option<Json>, jsonc: string -> Option<Json>)

  type Order = (CanonicalJson.Text, CanonicalJson.Text) -> bool

  /** `text` is what is hashed of the deploy steps, or nothing when the extraction throws. */
  ghost predicate IsStepsText(less: Order, workflow: Option<Json>, text: Option<string>) {
    if workflow.Some? && Steps(workflow.value).Some? then
      text == Some(Scalars(Print(less, Contract(Steps(workflow.value).value))))
    else text.None?
  }

  /** `text` is what is hashed of the dependency closure, in some order of its packages, or nothing
      when the search throws or does not end. */
  ghost predicate IsClosureText(less: Order, lock: Option<Json>, text: Option<string>) {
    if lock.Some? && LockFile.HasClosure(lock.value) then
      text.Some? && exists ms :: LockFile.IsClosure(lock.value, ms) && text.value == Scalars(Print(less, Object(ms)))
    else text.None?
  }

  ghost predicate Parsed(j: Option<Json>) {
    j.Some? ==> WellFormed(j.value)
  }

  /** The two extractions are the scripts' own. */
  ghost predicate Extracts(x: Externals, ps: Parsers, less: Order) {
    && (forall text :: Parsed(ps.yaml(text)) && IsStepsText(less, ps.yaml(text), x.deploySteps(text)))
    && (forall text :: Parsed(ps.jsonc(text)) && IsClosureText(less, ps.jsonc(text), x.closureText(text)))
  }

  /** Every choice of parsers, contracts, accessory extraction and digest has such extractions. */
  lemma ExtractionsExist(x: Externals, ps: Parsers, less: Order) returns (x': Externals)
    requires forall text :: Parsed(ps.yaml(text)) && Parsed(ps.jsonc(text))
    ensures Extracts(x', ps, less)
    ensures x' == x.(deploySteps := x'.deploySteps, closureText := x'.closureText)
  {
    x' := x.(deploySteps := text => StepsText(less, ps.yaml(text)),
             closureText := text => ClosureText(less, ps.jsonc(text)));
    forall text
      ensures IsStepsText(less, ps.yaml(text), x'.deploySteps(text))
      ensures IsClosureText(less, ps.jsonc(text), x'.closureText(text))
    {
      assert Parsed(ps.jsonc(text));
      ClosureTextIsOne(less, ps.jsonc(text));
    }
  }

  ghost function StepsText(less: Order, workflow: Option<Json>): Option<string> {
    if workflow.Some? && Steps(workflow.value).Some?
    then Some(Scalars(Print(less, Contract(Steps(workflow.value).value)))) else None
  }

  ghost function ClosureText(less: Order, lock: Option<Json>): Option<string> {
    if lock.Some? && WellFormed(lock.value) && LockFile.HasClosure(lock.value) then
      LockFile.EntriesAreWellFormed(lock.value);
      Some(Scalars(Print(less, Object(LockFile.Part(LockFile.Entries(lock.value), LockFile.Collection(lock.value))))))
    else None
  }

  lemma ClosureTextIsOne(less: Order, lock: Option<Json>)
    requires Parsed(lock)
    ensures IsClosureText(less, lock, ClosureText(less, lock))
  {
    if lock.Some? && LockFile.HasClosure(lock.value) {
      LockFile.EntriesAreWellFormed(lock.value);
      var ms := LockFile.Part(LockFile.Entries(lock.value), LockFile.Collection(lock.value));
      assert LockFile.IsClosure(lock.value, ms);
    }
  }

  // ---- the content of a snapshot ----

  /** What the revisions of a snapshot are of. */
  datatype Content = Content(
    backend: map<string, string>, steps: seq<StepValue>, invoked: seq<string>,
    sidecar: map<string, string>, closure: Value, accessory: string)

  /** The backend's build context but its tests. */
  function BackendFiles(files: Files): map<string, string> {
    map p | p in files && (p == ".dockerignore" || p == NATIVE_PROVIDER_INPUT
        || (Under(BACKEND_ROOT, p) && !IsBackendTest(p))) :: files[p]
  }

  /** The sidecar's direct inputs and its sources but their tests. */
  function SidecarFiles(files: Files): map<string, string> {
    map p | p in files && (p in DIRECT_FILE_INPUTS || (Under(SIDECAR_SOURCE_ROOT, p) && !IsSourceTest(p)))
      :: files[p]
  }

  /** A file the deploy job invokes; a missing one is recorded as missing. */
  function Invoked(files: Files, i: nat): string
    requires i < |DEPLOYMENT_FILE_INPUTS|
  {
    var path := DEPLOYMENT_FILE_INPUTS[i].0;
    if path in files then files[path] else "<missing:" + path + ">"
  }

  function AllInvoked(files: Files): seq<string> {
    [Invoked(files, 0), Invoked(files, 1), Invoked(files, 2), Invoked(files, 3)]
  }

  ghost predicate Releasable(x: Externals, ps: Parsers, files: Files) {
    && IMAGE_RELEASE_WORKFLOW in files && "bun.lock" in files && "config/deploy.yml" in files
    && ps.yaml(files[IMAGE_RELEASE_WORKFLOW]).Some? && Steps(ps.yaml(files[IMAGE_RELEASE_WORKFLOW]).value).Some?
    && ps.jsonc(files["bun.lock"]).Some? && LockFile.HasClosure(ps.jsonc(files["bun.lock"]).value)
    && x.accessory(files["config/deploy.yml"]).Some?
  }

  function StepsIn(ps: Parsers, files: Files): seq<Json>
    requires IMAGE_RELEASE_WORKFLOW in files && ps.yaml(files[IMAGE_RELEASE_WORKFLOW]).Some?
    requires Steps(ps.yaml(files[IMAGE_RELEASE_WORKFLOW]).value).Some?
  {
    Steps(ps.yaml(files[IMAGE_RELEASE_WORKFLOW]).value).value
  }

  function LockIn(ps: Parsers, files: Files): Json
    requires "bun.lock" in files && ps.jsonc(files["bun.lock"]).Some?
  {
    ps.jsonc(files["bun.lock"]).value
  }

  ghost function ContentOf(x: Externals, ps: Parsers, files: Files): Content
    requires Releasable(x, ps, files)
  {
    Content(
      BackendFiles(files), StepMeanings(StepsIn(ps, files)), AllInvoked(files),
      SidecarFiles(files), LockFile.ClosureValue(LockIn(ps, files)), x.accessory(files["config/deploy.yml"]).value)
  }

  /** The comparison orders the keys of every record that is printed. */
  ghost predicate OrdersKeys(x: Externals, ps: Parsers, less: Order, files: Files)
    requires Releasable(x, ps, files)
  {
    && Ordered(less, Contract(StepsIn(ps, files)))
    && forall ms :: LockFile.IsClosure(LockIn(ps, files), ms) ==> Ordered(less, Object(ms))
  }

  // ---- the input maps are the content ----

  lemma RunIsReleasable(x: Externals, ps: Parsers, less: Order, files: Files)
    requires Extracts(x, ps, less) && Evaluable(x, files)
    ensures Releasable(x, ps, files)
  {
    DeploySteps(x, files);
    SidecarExtracts(x, files);
    assert IsStepsText(less, ps.yaml(files[IMAGE_RELEASE_WORKFLOW]), x.deploySteps(files[IMAGE_RELEASE_WORKFLOW]));
    assert IsClosureText(less, ps.jsonc(files["bun.lock"]), x.closureText(files["bun.lock"]));
  }

  lemma BackendIsContent(x: Externals, files: Files)
    requires Evaluable(x, files)
    ensures InputsAt(x, files).backend == BackendFiles(files)
  {
    forall p
      ensures p in InputsAt(x, files).backend <==> p in BackendFiles(files)
      ensures p in BackendFiles(files) ==> InputsAt(x, files).backend[p] == files[p]
    {
      BackendInputsAreFiles(x, files, p);
      assert BACKEND_ROOT + "/" == "backend/";
    }
  }

  /** The deployment map: five keys. */
  function DeploymentMap(steps: string, invoked: seq<string>): map<string, string>
    requires |invoked| == 4
  {
    map[ DEPLOY_STEPS_KEY := steps,
         DEPLOYMENT_FILE_INPUTS[0].0 := invoked[0],
         DEPLOYMENT_FILE_INPUTS[1].0 := invoked[1],
         DEPLOYMENT_FILE_INPUTS[2].0 := invoked[2],
         DEPLOYMENT_FILE_INPUTS[3].0 := invoked[3] ]
  }

  lemma DeploymentIsContent(x: Externals, files: Files)
    requires Evaluable(x, files)
    ensures IMAGE_RELEASE_WORKFLOW in files && x.deploySteps(files[IMAGE_RELEASE_WORKFLOW]).Some?
    ensures
      InputsAt(x, files).deployment ==
        DeploymentMap(x.deploySteps(files[IMAGE_RELEASE_WORKFLOW]).value, AllInvoked(files))
  {
    var env := RunOn(Program(x), files).outcome.value;
    WorkflowIsRead(x, files);
    forall i | 0 <= i < |DEPLOYMENT_FILE_INPUTS|
      ensures OptionalText(env, DEPLOYMENT_FILE_INPUTS[i].0) == Invoked(files, i)
    {
      InputDirectory(i);
      OptionalInputIsFile(x, files, i);
    }
  }

  lemma DeploymentMapIsInjective(steps: string, invoked: seq<string>, steps': string, invoked': seq<string>)
    requires |invoked| == |invoked'| == 4 && DeploymentMap(steps, invoked) == DeploymentMap(steps', invoked')
    ensures steps == steps' && invoked == invoked'
  {
    DeploymentKeysDiffer();
    var m, n := DeploymentMap(steps, invoked), DeploymentMap(steps', invoked');
    assert m[DEPLOY_STEPS_KEY] == n[DEPLOY_STEPS_KEY];
    forall i | 0 <= i < 4
      ensures invoked[i] == invoked'[i]
    {
      assert m[DEPLOYMENT_FILE_INPUTS[i].0] == n[DEPLOYMENT_FILE_INPUTS[i].0];
    }
  }

  lemma SameDeployment(x: Externals, s: Files, t: Files)
    requires Evaluable(x, s) && Evaluable(x, t)
    ensures IMAGE_RELEASE_WORKFLOW in s && IMAGE_RELEASE_WORKFLOW in t
    ensures InputsAt(x, s).deployment == InputsAt(x, t).deployment <==>
      && x.deploySteps(s[IMAGE_RELEASE_WORKFLOW]) == x.deploySteps(t[IMAGE_RELEASE_WORKFLOW])
      && AllInvoked(s) == AllInvoked(t)
  {
    DeploymentIsContent(x, s);
    DeploymentIsContent(x, t);
    if InputsAt(x, s).deployment == InputsAt(x, t).deployment {
      DeploymentMapIsInjective(x.deploySteps(s[IMAGE_RELEASE_WORKFLOW]).value, AllInvoked(s),
        x.deploySteps(t[IMAGE_RELEASE_WORKFLOW]).value, AllInvoked(t));
    }
  }

  lemma ExtractsDiffer()
    ensures |CLOSURE_KEY| == 44 && CLOSURE_KEY[6] == 'c' && |ACCESSORY_KEY| == 46 && ACCESSORY_KEY[6] == '/'
  {}

  /** No file that is read is named like an extract. */
  lemma ExtractsAreNoFiles(files: Files)
    ensures CLOSURE_KEY !in SidecarFiles(files) && ACCESSORY_KEY !in SidecarFiles(files)
  {
    ExtractsDiffer();
    assert SIDECAR_SOURCE_ROOT[6] == 'e' && (SIDECAR_SOURCE_ROOT + "/")[6] == 'e';
    assert |DIRECT_FILE_INPUTS[1]| == 29 && |DIRECT_FILE_INPUTS[2]| == 18 && |DIRECT_FILE_INPUTS[4]| == 47;
    assert |DIRECT_FILE_INPUTS[5]| == 53 && DIRECT_FILE_INPUTS[0][6] == 'e' && DIRECT_FILE_INPUTS[3][6] == 'e';
  }

  /** The sidecar map: its files and two extracts. */
  function SidecarMap(files: Files, closure: string, accessory: string): map<string, string> {
    SidecarFiles(files)[CLOSURE_KEY := closure][ACCESSORY_KEY := accessory]
  }

  lemma SidecarEntry(x: Externals, files: Files, closure: string, accessory: string, p: string)
    requires Evaluable(x, files)
    requires
      var m := InputsAt(x, files).sidecar;
      CLOSURE_KEY in m && ACCESSORY_KEY in m && m[CLOSURE_KEY] == closure && m[ACCESSORY_KEY] == accessory
    ensures
      var m, n := InputsAt(x, files).sidecar, SidecarMap(files, closure, accessory);
      (p in m <==> p in n) && (p in m ==> m[p] == n[p])
  {
    assert |CLOSURE_KEY| == 44 && |ACCESSORY_KEY| == 46;
    if p != CLOSURE_KEY && p != ACCESSORY_KEY {
      SidecarInputsAreFiles(x, files, p);
    }
  }

  lemma SidecarIsContent(x: Externals, files: Files)
    requires Evaluable(x, files)
    ensures "bun.lock" in files && x.closureText(files["bun.lock"]).Some?
    ensures "config/deploy.yml" in files && x.accessory(files["config/deploy.yml"]).Some?
    ensures
      InputsAt(x, files).sidecar ==
        SidecarMap(files, x.closureText(files["bun.lock"]).value, x.accessory(files["config/deploy.yml"]).value)
  {
    SidecarExtracts(x, files);
    var closure, accessory := x.closureText(files["bun.lock"]).value, x.accessory(files["config/deploy.yml"]).value;
    var m, n := InputsAt(x, files).sidecar, SidecarMap(files, closure, accessory);
    forall p
      ensures (p in m <==> p in n) && (p in m ==> m[p] == n[p])
    {
      SidecarEntry(x, files, closure, accessory, p);
    }
  }

  lemma SameSidecar(x: Externals, s: Files, t: Files)
    requires Evaluable(x, s) && Evaluable(x, t)
    ensures "bun.lock" in s && "bun.lock" in t && "config/deploy.yml" in s && "config/deploy.yml" in t
    ensures InputsAt(x, s).sidecar == InputsAt(x, t).sidecar <==>
      && SidecarFiles(s) == SidecarFiles(t)
      && x.closureText(s["bun.lock"]) == x.closureText(t["bun.lock"])
      && x.accessory(s["config/deploy.yml"]) == x.accessory(t["config/deploy.yml"])
  {
    SidecarIsContent(x, s);
    SidecarIsContent(x, t);
    ExtractsAreNoFiles(s);
    ExtractsAreNoFiles(t);
    assert |CLOSURE_KEY| == 44 && |ACCESSORY_KEY| == 46;
    TwoExtras(SidecarFiles(s), SidecarFiles(t), CLOSURE_KEY, ACCESSORY_KEY,
      (x.closureText(s["bun.lock"]).value, x.accessory(s["config/deploy.yml"]).value),
      (x.closureText(t["bun.lock"]).value, x.accessory(t["config/deploy.yml"]).value));
  }

  lemma TwoExtras(m: map<string, string>, n: map<string, string>, k: string, l: string,
                  v: (string, string), w: (string, string))
    requires k != l && k !in m && k !in n && l !in m && l !in n
    ensures m[k := v.0][l := v.1] == n[k := w.0][l := w.1] <==> m == n && v == w
  {
    var a, b := m[k := v.0][l := v.1], n[k := w.0][l := w.1];
    if a == b {
      assert a[k] == b[k] && a[l] == b[l];
      assert m == a - {k, l} && n == b - {k, l};
    }
  }

  // ---- the extracts are what they say ----

  lemma StepsTextTells(x: Externals, ps: Parsers, less: Order, s: Files, t: Files)
    requires Extracts(x, ps, less) && Releasable(x, ps, s) && Releasable(x, ps, t)
    ensures
      x.deploySteps(s[IMAGE_RELEASE_WORKFLOW]) == x.deploySteps(t[IMAGE_RELEASE_WORKFLOW]) ==>
        StepMeanings(StepsIn(ps, s)) == StepMeanings(StepsIn(ps, t))
    ensures
      OrdersKeys(x, ps, less, s) && OrdersKeys(x, ps, less, t) &&
        StepMeanings(StepsIn(ps, s)) == StepMeanings(StepsIn(ps, t)) ==>
        x.deploySteps(s[IMAGE_RELEASE_WORKFLOW]) == x.deploySteps(t[IMAGE_RELEASE_WORKFLOW])
  {
    var u, v := s[IMAGE_RELEASE_WORKFLOW], t[IMAGE_RELEASE_WORKFLOW];
    assert Parsed(ps.yaml(u)) && IsStepsText(less, ps.yaml(u), x.deploySteps(u));
    assert Parsed(ps.yaml(v)) && IsStepsText(less, ps.yaml(v), x.deploySteps(v));
    ContractIsWellFormed(ps.yaml(u).value);
    ContractIsWellFormed(ps.yaml(v).value);
    HashedTextIsFaithful(less, Contract(StepsIn(ps, s)), Contract(StepsIn(ps, t)));
    ContractTells(StepsIn(ps, s), StepsIn(ps, t));
  }

  lemma ClosureTextTells(x: Externals, ps: Parsers, less: Order, s: Files, t: Files)
    requires Extracts(x, ps, less) && Releasable(x, ps, s) && Releasable(x, ps, t)
    ensures
      x.closureText(s["bun.lock"]) == x.closureText(t["bun.lock"]) ==>
        LockFile.ClosureValue(LockIn(ps, s)) == LockFile.ClosureValue(LockIn(ps, t))
    ensures
      OrdersKeys(x, ps, less, s) && OrdersKeys(x, ps, less, t) &&
        LockFile.ClosureValue(LockIn(ps, s)) == LockFile.ClosureValue(LockIn(ps, t)) ==>
        x.closureText(s["bun.lock"]) == x.closureText(t["bun.lock"])
  {
    var ms := ClosureIsPrinted(x, ps, less, s);
    var ns := ClosureIsPrinted(x, ps, less, t);
    HashedTextIsFaithful(less, Object(ms), Object(ns));
  }

  lemma ClosureIsPrinted(x: Externals, ps: Parsers, less: Order, files: Files)
    returns (ms: seq<(CanonicalJson.Text, Json)>)
    requires Extracts(x, ps, less) && Releasable(x, ps, files)
    ensures LockFile.IsClosure(LockIn(ps, files), ms)
    ensures WellFormed(Object(ms)) && Meaning(Object(ms)) == LockFile.ClosureValue(LockIn(ps, files))
    ensures x.closureText(files["bun.lock"]) == Some(Scalars(Print(less, Object(ms))))
  {
    var text := files["bun.lock"];
    assert Parsed(ps.jsonc(text)) && IsClosureText(less, ps.jsonc(text), x.closureText(text));
    ms :| LockFile.IsClosure(LockIn(ps, files), ms)
      && x.closureText(text).value == Scalars(Print(less, Object(ms)));
    LockFile.ClosureMeans(LockIn(ps, files), ms);
  }

  // ---- the revisions tell the content ----

  /** Snapshots with the same input maps have the same content; where the comparison orders the
      printed keys, and only the order of keys is at stake, the converse holds too. */
  lemma InputsTellContent(x: Externals, ps: Parsers, less: Order, s: Files, t: Files)
    requires Extracts(x, ps, less) && Evaluable(x, s) && Evaluable(x, t)
    requires Releasable(x, ps, s) && Releasable(x, ps, t)
    ensures InputsAt(x, s) == InputsAt(x, t) ==> ContentOf(x, ps, s) == ContentOf(x, ps, t)
    ensures OrdersKeys(x, ps, less, s) && OrdersKeys(x, ps, less, t) && ContentOf(x, ps, s) == ContentOf(x, ps, t) ==>
      InputsAt(x, s) == InputsAt(x, t)
  {
    BackendIsContent(x, s);
    BackendIsContent(x, t);
    SameDeployment(x, s, t);
    SameSidecar(x, s, t);
    StepsTextTells(x, ps, less, s, t);
    ClosureTextTells(x, ps, less, s, t);
  }

  /** The hash, with the comparison of the names of the input maps. */
  ghost predicate Hashes(x: Externals, hash: Utf8.Bytes -> string, byName: (Utf8.Bytes, Utf8.Bytes) -> bool) {
    HashesFrames(x.digest, hash, byName) && Injective(hash)
  }

  /** No change of the content goes without a release, whatever the comparisons; and a release is
      required exactly when the content changed, where they order the printed keys. */
  lemma ReleaseRequiredExactlyWhen(
      x: Externals, ps: Parsers, less: Order, hash: Utf8.Bytes -> string,
      byName: (Utf8.Bytes, Utf8.Bytes) -> bool, s: Files, t: Files)
    requires Extracts(x, ps, less) && Hashes(x, hash, byName)
    requires Evaluate(ImageReviser(x), s).Ok? && Evaluate(ImageReviser(x), t).Ok?
    ensures Releasable(x, ps, s) && Releasable(x, ps, t)
    ensures
      var required := ReleaseRequired(Evaluate(ImageReviser(x), s).value, Evaluate(ImageReviser(x), t).value);
      && (ContentOf(x, ps, s) != ContentOf(x, ps, t) ==> required)
      && (OrdersKeys(x, ps, less, s) && OrdersKeys(x, ps, less, t) ==>
           (required <==> ContentOf(x, ps, s) != ContentOf(x, ps, t)))
  {
    RunIsReleasable(x, ps, less, s);
    RunIsReleasable(x, ps, less, t);
    RevisionsTellInputs(x, hash, byName, s, t);
    InputsTellContent(x, ps, less, s, t);
  }

  /** A change of the lock file alone requires a release exactly when it changes the dependency
      closure as a value. */
  lemma LockChangeNeedsReleaseExactlyWhen(
      x: Externals, ps: Parsers, less: Order, hash: Utf8.Bytes -> string,
      byName: (Utf8.Bytes, Utf8.Bytes) -> bool, s: Files, text: string)
    requires Extracts(x, ps, less) && Hashes(x, hash, byName)
    requires "bun.lock" in s
    requires Evaluate(ImageReviser(x), s).Ok? && Evaluate(ImageReviser(x), s["bun.lock" := text]).Ok?
    ensures Releasable(x, ps, s) && Releasable(x, ps, s["bun.lock" := text])
    ensures
      var t := s["bun.lock" := text];
      var required := ReleaseRequired(Evaluate(ImageReviser(x), s).value, Evaluate(ImageReviser(x), t).value);
      var same := LockFile.ClosureValue(LockIn(ps, s)) == LockFile.ClosureValue(LockIn(ps, t));
      && (!same ==> required)
      && (OrdersKeys(x, ps, less, s) && OrdersKeys(x, ps, less, t) ==> (required <==> !same))
  {
    var t := s["bun.lock" := text];
    ReleaseRequiredExactlyWhen(x, ps, less, hash, byName, s, t);
    OnlyTheLockChanges(s, text);
  }

  lemma OnlyTheLockChanges(s: Files, text: string)
    requires "bun.lock" in s
    ensures
      var t := s["bun.lock" := text];
      && BackendFiles(s) == BackendFiles(t) && SidecarFiles(s) == SidecarFiles(t) && AllInvoked(s) == AllInvoked(t)
      && (IMAGE_RELEASE_WORKFLOW in s ==> s[IMAGE_RELEASE_WORKFLOW] == t[IMAGE_RELEASE_WORKFLOW])
      && ("config/deploy.yml" in s ==> s["config/deploy.yml"] == t["config/deploy.yml"])
  {
    LockIsNoOther();
  }

  lemma LockIsNoOther()
    ensures "bun.lock" != ".dockerignore" && "bun.lock" != NATIVE_PROVIDER_INPUT && !Under(BACKEND_ROOT, "bun.lock")
    ensures "bun.lock" != IMAGE_RELEASE_WORKFLOW && "bun.lock" != "config/deploy.yml"
    ensures "bun.lock" !in DIRECT_FILE_INPUTS && !Under(SIDECAR_SOURCE_ROOT, "bun.lock")
    ensures forall i :: 0 <= i < |DEPLOYMENT_FILE_INPUTS| ==> DEPLOYMENT_FILE_INPUTS[i].0 != "bun.lock"
  {
    assert |"bun.lock"| == 8 && |BACKEND_ROOT| == 7 && (BACKEND_ROOT + "/")[1] == 'a' && "bun.lock"[1] == 'u';
    assert |SIDECAR_SOURCE_ROOT| > 8;
    assert |NATIVE_PROVIDER_INPUT| > 8 && |IMAGE_RELEASE_WORKFLOW| > 8;
    assert forall i :: 0 <= i < |DIRECT_FILE_INPUTS| ==> |DIRECT_FILE_INPUTS[i]| > 8;
    assert forall i :: 0 <= i < |DEPLOYMENT_FILE_INPUTS| ==> |DEPLOYMENT_FILE_INPUTS[i].0| > 8;
  }

  /** The snapshots have the same content. */
  ghost predicate SameContent(x: Externals, ps: Parsers, s: Files, t: Files) {
    Releasable(x, ps, s) && Releasable(x, ps, t) && ContentOf(x, ps, s) == ContentOf(x, ps, t)
  }

  ghost predicate Comparable(x: Externals, ps: Parsers, less: Order, files: Files) {
    Evaluable(x, files) && Releasable(x, ps, files) && OrdersKeys(x, ps, less, files)
  }

  /** The lag names the first commit whose content differs from the deployed one, and is none
      exactly when HEAD's does not. */
  lemma LagIsEarliestContentChange(
      x: Externals, ps: Parsers, less: Order, hash: Utf8.Bytes -> string,
      byName: (Utf8.Bytes, Utf8.Bytes) -> bool, h: History, now: int)
    requires Extracts(x, ps, less) && Hashes(x, hash, byName)
    requires Comparable(x, ps, less, h.deployed) && Comparable(x, ps, less, Head(h))
    requires forall i :: 0 <= i < |h.commits| ==> Comparable(x, ps, less, h.commits[i].files)
    requires ListingsAreComplete(h) && NoFileAtRoot(RunOn(Program(x), h.deployed).seen, h)
    ensures
      match FilteredLag(ImageReviser(x), h, now)
      case UpToDate => SameContent(x, ps, Head(h), h.deployed)
      case Behind(k, age) =>
        && !SameContent(x, ps, Head(h), h.deployed)
        && k < |h.commits| && age == Age(now, h.commits[k].time)
        && !SameContent(x, ps, h.commits[k].files, h.deployed)
        && forall j :: 0 <= j < k ==> SameContent(x, ps, h.commits[j].files, h.deployed)
      case _ => false
  {
    LagIsEarliestInputChange(x, hash, byName, h, now);
    InputsTellContent(x, ps, less, Head(h), h.deployed);
    forall i | 0 <= i < |h.commits|
      ensures SameInputs(x, h.commits[i].files, h.deployed) <==> SameContent(x, ps, h.commits[i].files, h.deployed)
    {
      InputsTellContent(x, ps, less, h.commits[i].files, h.deployed);
    }
  }
}
