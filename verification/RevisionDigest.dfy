/** The digests of the revision scripts (scripts/clawdi-image-release-plan.ts `hashInputs`,
    scripts/whatsapp-sidecar-deployment-revision.ts): with a hash that separates byte streams, the
    revisions tell apart exactly the snapshots whose input maps differ. */
module RevisionDigest {
  import opened Common
  import opened RevisionProgram
  import opened ImageRevisions
  import opened DeploymentLag
  import opened NameOrder
  import opened HashFraming
  import Utf8

  /** The characters of a string as Unicode scalar values. */
  function Points(s: string): (t: Utf8.Text)
    ensures |t| == |s|
  {
    seq(|s|, i requires 0 <= i < |s| => s[i] as int)
  }

  /** What `Buffer.byteLength` measures and `hash.update` feeds. */
  function Encoded(s: string): Utf8.Bytes {
    Utf8.Encode(Points(s))
  }

  lemma EncodedIsInjective(s: string, t: string)
    requires Encoded(s) == Encoded(t)
    ensures s == t
  {
    Utf8.EncodeInjective(Points(s), Points(t));
    forall i | 0 <= i < |s|
      ensures s[i] == t[i]
    {
      assert Points(s)[i] == Points(t)[i];
    }
  }

  /** `names` lists the keys of the map once each, in some insertion order. */
  ghost predicate Lists(names: seq<string>, m: map<string, string>) {
    && (forall i, j :: 0 <= i < j < |names| ==> names[i] != names[j])
    && (forall k :: k in names <==> k in m)
  }

  ghost function Entries(m: map<string, string>, names: seq<string>): seq<(Utf8.Bytes, Utf8.Bytes)>
    requires Lists(names, m)
  {
    seq(|names|, i requires 0 <= i < |names| => (Encoded(names[i]), Encoded(m[names[i]])))
  }

  /** `d` is the hash of the framed entries of the map, sorted from some insertion order. */
  ghost predicate HashOf(
      d: string, hash: Utf8.Bytes -> string, less: (Utf8.Bytes, Utf8.Bytes) -> bool, m: map<string, string>) {
    exists names :: Lists(names, m) && d == hash(Frame(SortByName(less, Entries(m, names))))
  }

  /** The digest hashes every map in an insertion order that depends on the map alone, as the scripts
      do by sorting their listings. Nothing is asked of the comparison, which may tie. */
  ghost predicate HashesFrames(
      digest: map<string, string> -> string, hash: Utf8.Bytes -> string, less: (Utf8.Bytes, Utf8.Bytes) -> bool) {
    forall m :: HashOf(digest(m), hash, less, m)
  }

  ghost predicate Injective(hash: Utf8.Bytes -> string) {
    forall a, b :: hash(a) == hash(b) ==> a == b
  }

  lemma {:induction false} ListExists(m: map<string, string>)
    ensures exists names :: Lists(names, m)
    decreases |m|
  {
    if m == map[] {
      assert Lists([], m);
    } else {
      var k :| k in m;
      ListExists(m - {k});
      var rest :| Lists(rest, m - {k});
      assert Lists(rest + [k], m);
    }
  }

  /** Every hash and every comparison have such a digest. */
  lemma DigestExists(hash: Utf8.Bytes -> string, less: (Utf8.Bytes, Utf8.Bytes) -> bool)
    returns (digest: map<string, string> -> string)
    ensures HashesFrames(digest, hash, less)
  {
    digest := (m: map<string, string>) => hash(Frame(SortByName(less, Entries(m, SomeOrder(m)))));
    forall m
      ensures HashOf(digest(m), hash, less, m)
    {
      assert Lists(SomeOrder(m), m);
    }
  }

  ghost function SomeOrder(m: map<string, string>): (names: seq<string>)
    ensures Lists(names, m)
  {
    ListExists(m);
    var names :| Lists(names, m);
    names
  }

  /** Maps whose entries encode to the same pairs agree on every key of the first. */
  lemma ContentsDetermine(
      m: map<string, string>, names: seq<string>, n: map<string, string>, others: seq<string>, k: string)
    requires Lists(names, m) && Lists(others, n) && k in m
    requires Contents(Entries(m, names)) == Contents(Entries(n, others))
    ensures k in n && n[k] == m[k]
  {
    var i :| 0 <= i < |names| && names[i] == k;
    var es, fs := Entries(m, names), Entries(n, others);
    assert es[i] in es && es[i] in Contents(es);
    assert es[i] in fs;
    var j :| 0 <= j < |fs| && fs[j] == es[i];
    EncodedIsInjective(others[j], k);
    EncodedIsInjective(n[others[j]], m[k]);
  }

  /** Maps with the same framed entries are equal, in whatever orders these were set. */
  lemma FramesDetermine(
      less: (Utf8.Bytes, Utf8.Bytes) -> bool, m: map<string, string>, names: seq<string>,
      n: map<string, string>, others: seq<string>)
    requires Lists(names, m) && Lists(others, n)
    requires Frame(SortByName(less, Entries(m, names))) == Frame(SortByName(less, Entries(n, others)))
    ensures m == n
  {
    var es, fs := Entries(m, names), Entries(n, others);
    StreamHoldsContents(less, es, fs);
    forall k | k in m ensures k in n && n[k] == m[k] { ContentsDetermine(m, names, n, others, k); }
    forall k | k in n ensures k in m { ContentsDetermine(n, others, m, names, k); }
  }

  /** With a hash that separates byte streams the digest separates exactly the different maps,
      whatever the comparison. */
  lemma DigestSeparates(
      digest: map<string, string> -> string, hash: Utf8.Bytes -> string, less: (Utf8.Bytes, Utf8.Bytes) -> bool,
      m: map<string, string>, n: map<string, string>)
    requires HashesFrames(digest, hash, less) && Injective(hash)
    ensures digest(m) == digest(n) <==> m == n
  {
    if digest(m) == digest(n) {
      assert HashOf(digest(m), hash, less, m) && HashOf(digest(n), hash, less, n);
      var names :| Lists(names, m) && digest(m) == hash(Frame(SortByName(less, Entries(m, names))));
      var others :| Lists(others, n) && digest(n) == hash(Frame(SortByName(less, Entries(n, others))));
      FramesDetermine(less, m, names, n, others);
    }
  }

  // ---- the revisions ----

  /** The three maps that are hashed. */
  datatype Inputs = Inputs(backend: map<string, string>, deployment: map<string, string>, sidecar: map<string, string>)

  function InputsOf(x: Externals, env: Env): Inputs {
    Inputs(BackendInputs(env), DeploymentInputs(x, env), SidecarInputs(x, env))
  }

  /** A release is required exactly when one of the three input maps changed. */
  lemma ReleaseRequiredExactly(
      x: Externals, hash: Utf8.Bytes -> string, less: (Utf8.Bytes, Utf8.Bytes) -> bool, base: Env, head: Env)
    requires HashesFrames(x.digest, hash, less) && Injective(hash)
    ensures ReleaseRequired(RevisionsOf(x, base), RevisionsOf(x, head)) <==> InputsOf(x, base) != InputsOf(x, head)
  {
    DigestSeparates(x.digest, hash, less, BackendInputs(base), BackendInputs(head));
    DigestSeparates(x.digest, hash, less, DeploymentInputs(x, base), DeploymentInputs(x, head));
    DigestSeparates(x.digest, hash, less, SidecarInputs(x, base), SidecarInputs(x, head));
  }

  /** The input maps of a snapshot on which the program succeeds. */
  function InputsAt(x: Externals, files: Files): Inputs
    requires RunOn(Program(x), files).outcome.Ok?
  {
    InputsOf(x, RunOn(Program(x), files).outcome.value)
  }

  predicate Evaluable(x: Externals, files: Files) {
    RunOn(Program(x), files).outcome.Ok?
  }

  /** The program succeeds on both snapshots with the same three input maps. */
  predicate SameInputs(x: Externals, s: Files, t: Files) {
    && RunOn(Program(x), s).outcome.Ok? && RunOn(Program(x), t).outcome.Ok?
    && InputsAt(x, s) == InputsAt(x, t)
  }

  /** Equal revisions are equal inputs. */
  lemma RevisionsTellInputs(
      x: Externals, hash: Utf8.Bytes -> string, less: (Utf8.Bytes, Utf8.Bytes) -> bool, s: Files, t: Files)
    requires HashesFrames(x.digest, hash, less) && Injective(hash) && Evaluable(x, s) && Evaluable(x, t)
    ensures Evaluate(ImageReviser(x), s) == Evaluate(ImageReviser(x), t) <==> SameInputs(x, s, t)
  {
    ReleaseRequiredExactly(x, hash, less, RunOn(Program(x), s).outcome.value, RunOn(Program(x), t).outcome.value);
  }

  /** The lag of the image revisions names the first commit at which one of the three input maps
      differs from the deployed ones, and is none exactly when HEAD's are the same. */
  lemma LagIsEarliestInputChange(
      x: Externals, hash: Utf8.Bytes -> string, less: (Utf8.Bytes, Utf8.Bytes) -> bool, h: History, now: int)
    requires HashesFrames(x.digest, hash, less) && Injective(hash)
    requires Evaluable(x, h.deployed) && Evaluable(x, Head(h))
    requires forall i :: 0 <= i < |h.commits| ==> Evaluable(x, h.commits[i].files)
    requires ListingsAreComplete(h) && NoFileAtRoot(RunOn(Program(x), h.deployed).seen, h)
    ensures
      match FilteredLag(ImageReviser(x), h, now)
      case UpToDate => SameInputs(x, Head(h), h.deployed)
      case Behind(k, age) =>
        && !SameInputs(x, Head(h), h.deployed)
        && k < |h.commits| && age == Age(now, h.commits[k].time)
        && !SameInputs(x, h.commits[k].files, h.deployed)
        && forall j :: 0 <= j < k ==> SameInputs(x, h.commits[j].files, h.deployed)
      case _ => false
  {
    var base := Evaluate(ImageReviser(x), h.deployed).value;
    ImageLagIsEarliestChange(x, h, now, base);
    RevisionsTellInputs(x, hash, less, Head(h), h.deployed);
    if FilteredLag(ImageReviser(x), h, now).Behind? {
      var k := FilteredLag(ImageReviser(x), h, now).commit;
      RevisionsTellInputs(x, hash, less, h.commits[k].files, h.deployed);
      forall j | 0 <= j < k
        ensures SameInputs(x, h.commits[j].files, h.deployed)
      {
        RevisionsTellInputs(x, hash, less, h.commits[j].files, h.deployed);
      }
    }
  }
}
