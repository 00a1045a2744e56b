/** The revision program: which repository files the image revisions are computed from
    (scripts/clawdi-image-release-plan.ts, scripts/whatsapp-sidecar-deployment-revision.ts).

    The program reads a snapshot adaptively: some files must exist, some directories are
    listed, listed files are read if wanted, and contracts over what was read may reject the
    snapshot. Parsing and hashing are parameters. */
module RevisionProgram {
  import opened Common

  type Files = map<string, string>

  /** `git ls-tree -r <revision> -- root` names the files under the root, and the root itself
      when it is a file. */
  predicate Under(root: string, path: string) {
    path == root || root + "/" <= path
  }

  function Listing(files: Files, root: string): set<string> {
    set p | p in files && Under(root, p)
  }

  /** What has been read and listed so far. */
  datatype Env = Env(texts: Files, listed: set<string>)

  datatype Step =
    | Require(path: string)
    | Look(root: string)
    | Take(root: string, wanted: string -> bool)
    | Check(name: string, test: Env -> bool)

  datatype Failure = Unreadable(path: string) | Rejected(name: string)

  /** The recorded `paths` and `roots`. */
  datatype Footprint = Footprint(paths: set<string>, roots: set<string>)

  datatype Run = Run(outcome: Result<Env, Failure>, seen: Footprint)

  function Taken(files: Files, root: string, wanted: string -> bool): set<string> {
    set p | p in Listing(files, root) && wanted(p)
  }

  function Execute(steps: seq<Step>, files: Files, env: Env, seen: Footprint): Run {
    if steps == [] then Run(Ok(env), seen)
    else match steps[0]
      case Require(p) =>
        var seen' := seen.(paths := seen.paths + {p});
        if p !in files then Run(Err(Unreadable(p)), seen')
        else Execute(steps[1..], files, env.(texts := env.texts[p := files[p]]), seen')
      case Look(root) =>
        Execute(steps[1..], files, env.(listed := env.listed + Listing(files, root)),
                seen.(roots := seen.roots + {root}))
      case Take(root, wanted) =>
        var taken := Taken(files, root, wanted);
        Execute(steps[1..], files, env.(texts := env.texts + (map p | p in taken && p in files :: files[p])),
                seen.(paths := seen.paths + taken))
      case Check(name, test) =>
        if test(env) then Execute(steps[1..], files, env, seen) else Run(Err(Rejected(name)), seen)
  }

  const NothingRead := Footprint({}, {})
  const NothingKnown := Env(map[], {})

  function RunOn(steps: seq<Step>, files: Files): Run {
    Execute(steps, files, NothingKnown, NothingRead)
  }

  /** The recording snapshot of scripts/clawdi-deployment-lag.ts. */
  class Recorder {
    const files: Files
    var paths: set<string>
    var roots: set<string>

    constructor (files: Files)
      ensures this.files == files && paths == {} && roots == {}
    {
      this.files := files;
      paths, roots := {}, {};
    }

    method ListFiles(root: string) returns (listed: set<string>)
      modifies this
      ensures listed == Listing(files, root) && paths == old(paths) && roots == old(roots) + {root}
    {
      roots := roots + {root};
      listed := Listing(files, root);
    }

    method ReadText(path: string) returns (text: Option<string>)
      modifies this
      ensures text == (if path in files then Some(files[path]) else None)
      ensures paths == old(paths) + {path} && roots == old(roots)
    {
      paths := paths + {path};
      if path in files {
        return Some(files[path]);
      }
      return None;
    }

    /** The loop that reads every wanted file of a listing. */
    method ReadAll(wanted: set<string>) returns (texts: Files)
      requires wanted <= files.Keys
      modifies this
      ensures texts == map p | p in wanted && p in files :: files[p]
      ensures paths == old(paths) + wanted && roots == old(roots)
    {
      texts := map[];
      var rest := wanted;
      while rest != {}
        invariant rest <= wanted
        invariant texts == map p | p in wanted - rest && p in files :: files[p]
        invariant paths == old(paths) + (wanted - rest) && roots == old(roots)
      {
        var p :| p in rest;
        var text := ReadText(p);
        texts := texts[p := text.value];
        rest := rest - {p};
      }
    }

    method Evaluate(steps: seq<Step>) returns (outcome: Result<Env, Failure>)
      modifies this
      ensures Run(outcome, Footprint(paths, roots)) ==
        Execute(steps, files, NothingKnown, Footprint(old(paths), old(roots)))
    {
      var env := NothingKnown;
      ghost var start := Footprint(paths, roots);
      for i := 0 to |steps|
        invariant Execute(steps, files, NothingKnown, start) ==
          Execute(steps[i..], files, env, Footprint(paths, roots))
      {
        assert steps[i..][1..] == steps[i + 1..];
        match steps[i] {
          case Require(p) =>
            var text := ReadText(p);
            if text.None? {
              return Err(Unreadable(p));
            }
            env := env.(texts := env.texts[p := text.value]);
          case Look(root) =>
            var listed := ListFiles(root);
            env := env.(listed := env.listed + listed);
          case Take(root, wanted) =>
            var texts := ReadAll(Taken(files, root, wanted));
            env := env.(texts := env.texts + texts);
          case Check(name, test) =>
            if !test(env) {
              return Err(Rejected(name));
            }
        }
      }
      return Ok(env);
    }
  }

  // ---- what a program can read ----

  ghost predicate Requires(steps: seq<Step>, path: string) {
    exists i :: 0 <= i < |steps| && steps[i] == Require(path)
  }

  ghost predicate Looks(steps: seq<Step>, root: string) {
    exists i :: 0 <= i < |steps| && steps[i] == Look(root)
  }

  /** Files are taken only from directories the program lists. */
  ghost predicate TakesFromLooks(steps: seq<Step>, looks: iset<string>) {
    forall i :: 0 <= i < |steps| && steps[i].Take? ==> steps[i].root in looks
  }

  ghost function LookRoots(steps: seq<Step>): iset<string> {
    iset r | Looks(steps, r)
  }

  /** Whether a changed path is relevant to a footprint, as the commit filter tests it. */
  predicate Covered(fp: Footprint, path: string) {
    path in fp.paths || exists root :: root in fp.roots && root + "/" <= path
  }

  /** No listed root is itself a file. */
  ghost predicate RootsAreDirectories(fp: Footprint, files: Files) {
    forall root :: root in fp.roots ==> root !in files
  }

  lemma TailSteps(steps: seq<Step>)
    requires steps != []
    ensures forall p :: Requires(steps[1..], p) ==> Requires(steps, p)
    ensures forall r :: Looks(steps[1..], r) ==> Looks(steps, r)
    ensures forall p :: Requires(steps, p) ==> Requires(steps[1..], p) || steps[0] == Require(p)
    ensures forall r :: Looks(steps, r) ==> Looks(steps[1..], r) || steps[0] == Look(r)
  {
    assert forall i :: 0 <= i < |steps| - 1 ==> steps[1..][i] == steps[i + 1];
    assert forall i :: 0 < i < |steps| ==> steps[1..][i - 1] == steps[i];
  }

  /** A run that succeeds has made every required read and listing. */
  lemma {:induction false} SuccessReadsEverything(steps: seq<Step>, files: Files, env: Env, seen: Footprint)
    requires Execute(steps, files, env, seen).outcome.Ok?
    ensures
      var fp := Execute(steps, files, env, seen).seen;
      && seen.paths <= fp.paths && seen.roots <= fp.roots
      && (forall p :: Requires(steps, p) ==> p in fp.paths)
      && (forall r :: Looks(steps, r) ==> r in fp.roots)
    decreases |steps|
  {
    if steps != [] {
      TailSteps(steps);
      match steps[0] {
        case Require(p) =>
          SuccessReadsEverything(steps[1..], files, env.(texts := env.texts[p := files[p]]),
                                 seen.(paths := seen.paths + {p}));
        case Look(root) =>
          SuccessReadsEverything(steps[1..], files, env.(listed := env.listed + Listing(files, root)),
                                 seen.(roots := seen.roots + {root}));
        case Take(root, wanted) =>
          var taken := Taken(files, root, wanted);
          SuccessReadsEverything(steps[1..], files,
            env.(texts := env.texts + (map p | p in taken && p in files :: files[p])),
            seen.(paths := seen.paths + taken));
        case Check(name, test) =>
          SuccessReadsEverything(steps[1..], files, env, seen);
      }
    }
  }

  // ---- what a successful run has read ----

  ghost predicate Backed(texts: Files, files: Files) {
    forall p :: p in texts ==> p in files && texts[p] == files[p]
  }

  ghost predicate IsRead(step: Step, files: Files, p: string) {
    step == Require(p) || (step.Take? && p in Taken(files, step.root, step.wanted))
  }

  /** What the first step of a successful run does. */
  lemma FirstStep(steps: seq<Step>, files: Files, env: Env, seen: Footprint) returns (next: Env, after: Footprint)
    requires steps != [] && Execute(steps, files, env, seen).outcome.Ok? && Backed(env.texts, files)
    ensures Execute(steps[1..], files, next, after) == Execute(steps, files, env, seen)
    ensures Backed(next.texts, files) && env.texts.Keys <= next.texts.Keys
    ensures forall p :: IsRead(steps[0], files, p) ==> p in next.texts
    ensures steps[0].Check? ==> steps[0].test(env)
  {
    match steps[0] {
      case Require(p) =>
        next, after := env.(texts := env.texts[p := files[p]]), seen.(paths := seen.paths + {p});
      case Look(root) =>
        next, after := env.(listed := env.listed + Listing(files, root)), seen.(roots := seen.roots + {root});
      case Take(root, wanted) =>
        var taken := Taken(files, root, wanted);
        next := env.(texts := env.texts + (map p | p in taken && p in files :: files[p]));
        after := seen.(paths := seen.paths + taken);
      case Check(_, _) =>
        next, after := env, seen;
    }
  }

  /** The texts of a successful run are those of the snapshot. */
  lemma {:induction false} SuccessIsBacked(steps: seq<Step>, files: Files, env: Env, seen: Footprint)
    requires Execute(steps, files, env, seen).outcome.Ok? && Backed(env.texts, files)
    ensures
      var texts := Execute(steps, files, env, seen).outcome.value.texts;
      Backed(texts, files) && env.texts.Keys <= texts.Keys
    decreases |steps|
  {
    if steps != [] {
      var next, after := FirstStep(steps, files, env, seen);
      SuccessIsBacked(steps[1..], files, next, after);
    }
  }

  /** They hold every file that a step reads. */
  lemma {:induction false} StepIsRead(steps: seq<Step>, files: Files, env: Env, seen: Footprint, i: nat, p: string)
    requires Execute(steps, files, env, seen).outcome.Ok? && Backed(env.texts, files)
    requires i < |steps| && IsRead(steps[i], files, p)
    ensures p in Execute(steps, files, env, seen).outcome.value.texts
    decreases i
  {
    var next, after := FirstStep(steps, files, env, seen);
    if i == 0 {
      SuccessIsBacked(steps[1..], files, next, after);
    } else {
      StepIsRead(steps[1..], files, next, after, i - 1, p);
    }
  }

  /** A check of a successful run passed on what the steps before it had read. */
  lemma {:induction false} CheckPassed(steps: seq<Step>, files: Files, env: Env, seen: Footprint, i: nat, p: string)
    returns (mid: Env)
    requires Execute(steps, files, env, seen).outcome.Ok? && Backed(env.texts, files)
    requires i < |steps| && steps[i].Check?
    requires p in env.texts || exists j :: 0 <= j < i && IsRead(steps[j], files, p)
    ensures steps[i].test(mid) && Backed(mid.texts, files) && p in mid.texts
    decreases i
  {
    var next, after := FirstStep(steps, files, env, seen);
    if i == 0 {
      mid := env;
    } else {
      if p !in next.texts {
        var j :| 0 <= j < i && IsRead(steps[j], files, p);
        assert IsRead(steps[1..][j - 1], files, p);
      }
      mid := CheckPassed(steps[1..], files, next, after, i - 1, p);
    }
  }

  /** `fp` covers every read the program could make on a snapshot without files at its roots. */
  ghost predicate CoversProgram(fp: Footprint, steps: seq<Step>) {
    && (forall p :: Requires(steps, p) ==> p in fp.paths)
    && (forall r :: Looks(steps, r) ==> r in fp.roots)
    && TakesFromLooks(steps, iset r | r in fp.roots)
  }

  lemma CoversTail(fp: Footprint, steps: seq<Step>)
    requires CoversProgram(fp, steps) && steps != []
    ensures CoversProgram(fp, steps[1..])
  {
    TailSteps(steps);
  }

  ghost predicate ReadsCovered(fp: Footprint, seen: Footprint) {
    (forall p :: p in seen.paths ==> Covered(fp, p)) && seen.roots <= fp.roots
  }

  lemma TakenIsCovered(fp: Footprint, files: Files, root: string, wanted: string -> bool)
    requires root in fp.roots && RootsAreDirectories(fp, files)
    ensures forall p :: p in Taken(files, root, wanted) ==> Covered(fp, p)
  {}

  /** On any snapshot, successful or not, the program reads only what `fp` covers. */
  lemma {:induction false} ReadsStayCovered(fp: Footprint, steps: seq<Step>, files: Files, env: Env, seen: Footprint)
    requires CoversProgram(fp, steps) && RootsAreDirectories(fp, files) && ReadsCovered(fp, seen)
    ensures ReadsCovered(fp, Execute(steps, files, env, seen).seen)
    decreases |steps|
  {
    if steps != [] {
      CoversTail(fp, steps);
      match steps[0] {
        case Require(p) =>
          assert Requires(steps, p);
          if p in files {
            ReadsStayCovered(fp, steps[1..], files, env.(texts := env.texts[p := files[p]]),
                             seen.(paths := seen.paths + {p}));
          }
        case Look(root) =>
          assert Looks(steps, root);
          ReadsStayCovered(fp, steps[1..], files, env.(listed := env.listed + Listing(files, root)),
                           seen.(roots := seen.roots + {root}));
        case Take(root, wanted) =>
          TakenIsCovered(fp, files, root, wanted);
          var taken := Taken(files, root, wanted);
          ReadsStayCovered(fp, steps[1..], files,
            env.(texts := env.texts + (map p | p in taken && p in files :: files[p])),
            seen.(paths := seen.paths + taken));
        case Check(name, test) =>
          if test(env) {
            ReadsStayCovered(fp, steps[1..], files, env, seen);
          }
      }
    }
  }

  /** Two snapshots agree on every covered file. */
  ghost predicate AgreeOnCovered(fp: Footprint, s: Files, t: Files) {
    forall p :: Covered(fp, p) ==> (p in s <==> p in t) && (p in s ==> s[p] == t[p])
  }

  lemma ListingsAgree(fp: Footprint, s: Files, t: Files, root: string)
    requires AgreeOnCovered(fp, s, t) && root in fp.roots
    requires RootsAreDirectories(fp, s) && RootsAreDirectories(fp, t)
    ensures Listing(s, root) == Listing(t, root)
    ensures forall p :: p in Listing(s, root) ==> s[p] == t[p]
  {
    forall p | Under(root, p)
      ensures p in s <==> p in t
      ensures p in s ==> s[p] == t[p]
    {
      assert p != root ==> Covered(fp, p);
    }
  }

  /** Snapshots that agree on the covered files take the program to the same outcome: the same
      texts and listings, or the same failure. */
  lemma {:induction false} AgreementDecides(
      fp: Footprint, steps: seq<Step>, s: Files, t: Files, env: Env, seen: Footprint)
    requires CoversProgram(fp, steps) && AgreeOnCovered(fp, s, t)
    requires RootsAreDirectories(fp, s) && RootsAreDirectories(fp, t)
    ensures Execute(steps, s, env, seen) == Execute(steps, t, env, seen)
    decreases |steps|
  {
    if steps != [] {
      CoversTail(fp, steps);
      match steps[0] {
        case Require(p) =>
          assert Requires(steps, p) && Covered(fp, p);
          if p in s {
            AgreementDecides(fp, steps[1..], s, t, env.(texts := env.texts[p := s[p]]),
                             seen.(paths := seen.paths + {p}));
          }
        case Look(root) =>
          assert Looks(steps, root);
          ListingsAgree(fp, s, t, root);
          AgreementDecides(fp, steps[1..], s, t, env.(listed := env.listed + Listing(s, root)),
                           seen.(roots := seen.roots + {root}));
        case Take(root, wanted) =>
          ListingsAgree(fp, s, t, root);
          var taken := Taken(s, root, wanted);
          assert Taken(t, root, wanted) == taken;
          assert (map p | p in taken && p in s :: s[p]) == (map p | p in taken && p in t :: t[p]);
          AgreementDecides(fp, steps[1..], s, t,
            env.(texts := env.texts + (map p | p in taken && p in s :: s[p])),
            seen.(paths := seen.paths + taken));
        case Check(name, test) =>
          if test(env) {
            AgreementDecides(fp, steps[1..], s, t, env, seen);
          }
      }
    }
  }

  /** Footprint soundness. What a successful run records on one snapshot covers every read on
      any other, and decides the outcome on any two that agree on it. */
  lemma FootprintIsSound(steps: seq<Step>, deployed: Files, s: Files, t: Files)
    requires TakesFromLooks(steps, LookRoots(steps)) && RunOn(steps, deployed).outcome.Ok?
    requires RootsAreDirectories(RunOn(steps, deployed).seen, s)
    requires RootsAreDirectories(RunOn(steps, deployed).seen, t)
    ensures ReadsCovered(RunOn(steps, deployed).seen, RunOn(steps, s).seen)
    ensures AgreeOnCovered(RunOn(steps, deployed).seen, s, t) ==> RunOn(steps, s) == RunOn(steps, t)
  {
    var fp := RunOn(steps, deployed).seen;
    SuccessReadsEverything(steps, deployed, NothingKnown, NothingRead);
    ReadsStayCovered(fp, steps, s, NothingKnown, NothingRead);
    if AgreeOnCovered(fp, s, t) {
      AgreementDecides(fp, steps, s, t, NothingKnown, NothingRead);
    }
  }
}
