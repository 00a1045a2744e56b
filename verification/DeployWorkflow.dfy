/** The execution contract of the deploy job
    (scripts/clawdi-image-release-plan.ts `extractDeployVpsExecutionContract`), from the parsed
    workflow on. */
module DeployWorkflow {
  import opened Common
  import opened NameOrder
  import opened CanonicalJson

  const USES := Units("uses")
  const WITH := Units("with")
  const ENV := Units("env")
  const RUN := Units("run")

  function Then(o: Option<Json>, name: Text): Option<Json> {
    if o.Some? then Field(o.value, name) else None
  }

  /** A step that can be taken apart: `null` cannot, and a list has a method named `with` that
      cannot be printed. */
  predicate IsStep(step: Json) {
    !step.Null? && !step.Array?
  }

  /** The steps of the deploy job, of which there must be some. */
  function Steps(workflow: Json): Option<seq<Json>> {
    var steps := Then(Then(Field(workflow, Units("jobs")), Units("deploy-vps")), Units("steps"));
    if steps.Some? && steps.value.Array? && |steps.value.items| > 0
       && forall i :: 0 <= i < |steps.value.items| ==> IsStep(steps.value.items[i])
    then Some(steps.value.items) else None
  }

  function Kept(step: Json, name: Text): seq<(Text, Json)> {
    var v := Field(step, name);
    if v.Some? then [(name, v.value)] else []
  }

  /** The four fields of a step that execute something. */
  function Projection(step: Json): Json {
    Object(Kept(step, USES) + Kept(step, WITH) + Kept(step, ENV) + Kept(step, RUN))
  }

  function Contract(steps: seq<Json>): Json {
    Array(seq(|steps|, i requires 0 <= i < |steps| => Projection(steps[i])))
  }

  /** What a step executes. */
  datatype StepValue = StepValue(uses: Option<Value>, inputs: Option<Value>, env: Option<Value>, run: Option<Value>)

  ghost function FieldValue(step: Json, name: Text): Option<Value> {
    var v := Field(step, name);
    if v.Some? then Some(Meaning(v.value)) else None
  }

  ghost function StepMeaning(step: Json): StepValue {
    StepValue(FieldValue(step, USES), FieldValue(step, WITH), FieldValue(step, ENV), FieldValue(step, RUN))
  }

  ghost function StepMeanings(steps: seq<Json>): seq<StepValue> {
    seq(|steps|, i requires 0 <= i < |steps| => StepMeaning(steps[i]))
  }

  lemma NamesDiffer()
    ensures USES != WITH && USES != ENV && USES != RUN && WITH != ENV && WITH != RUN && ENV != RUN
  {
    assert |USES| == 4 && |WITH| == 4 && |ENV| == 3 && |RUN| == 3;
    assert USES[0] == 117 && WITH[0] == 119 && ENV[0] == 101 && RUN[0] == 114;
  }

  /** The projection keeps exactly the four fields, each with its value. */
  lemma ProjectionKeeps(step: Json, m: (Text, Json))
    ensures DistinctNames(Projection(step).members)
    ensures m in Projection(step).members <==>
      (m.0 == USES || m.0 == WITH || m.0 == ENV || m.0 == RUN) && Field(step, m.0) == Some(m.1)
  {
    NamesDiffer();
  }

  lemma ProjectionIsWellFormed(step: Json)
    requires WellFormed(step)
    ensures WellFormed(Projection(step))
  {
    var ms := Projection(step).members;
    ProjectionKeeps(step, (USES, step));
    forall i | 0 <= i < |ms|
      ensures WellFormed(ms[i].1)
    {
      assert ms[i] in ms;
      ProjectionKeeps(step, ms[i]);
      FieldIsWellFormed(step, ms[i].0);
    }
  }

  lemma ContractIsWellFormed(workflow: Json)
    requires WellFormed(workflow) && Steps(workflow).Some?
    ensures WellFormed(Contract(Steps(workflow).value))
  {
    var steps := Steps(workflow).value;
    StepsAreWellFormed(workflow);
    forall i | 0 <= i < |steps|
      ensures WellFormed(Projection(steps[i]))
    {
      ProjectionIsWellFormed(steps[i]);
    }
  }

  lemma StepsAreWellFormed(workflow: Json)
    requires WellFormed(workflow) && Steps(workflow).Some?
    ensures forall i :: 0 <= i < |Steps(workflow).value| ==> WellFormed(Steps(workflow).value[i])
  {
    var jobs := Field(workflow, Units("jobs"));
    FieldIsWellFormed(workflow, Units("jobs"));
    FieldIsWellFormed(jobs.value, Units("deploy-vps"));
    FieldIsWellFormed(Field(jobs.value, Units("deploy-vps")).value, Units("steps"));
  }

  /** A field of the meaning of a projection. */
  lemma ProjectedField(step: Json, name: Text)
    requires name == USES || name == WITH || name == ENV || name == RUN
    ensures
      var v := Meaning(Projection(step)).members;
      FieldValue(step, name) == if name in v then Some(v[name]) else None
  {
    var ms, v := Projection(step).members, Meaning(Projection(step)).members;
    ProjectionKeeps(step, (USES, step));
    if Field(step, name).Some? {
      var m := (name, Field(step, name).value);
      ProjectionKeeps(step, m);
      MemberMeaning(ms, m);
    } else if name in v {
      var m :| m in ms && m.0 == name;
      ProjectionKeeps(step, m);
    }
  }

  lemma ProjectedNames(step: Json, name: Text)
    requires name in Meaning(Projection(step)).members
    ensures name == USES || name == WITH || name == ENV || name == RUN
  {
    var m :| m in Projection(step).members && m.0 == name;
    ProjectionKeeps(step, m);
  }

  lemma SameFieldOfProjections(a: Json, b: Json, name: Text)
    requires StepMeaning(a) == StepMeaning(b) && name in Meaning(Projection(a)).members
    ensures
      var v, w := Meaning(Projection(a)).members, Meaning(Projection(b)).members;
      name in w && v[name] == w[name]
  {
    ProjectedNames(a, name);
    ProjectedField(a, name);
    ProjectedField(b, name);
  }

  lemma SameProjectionSameStep(a: Json, b: Json)
    requires Meaning(Projection(a)) == Meaning(Projection(b))
    ensures StepMeaning(a) == StepMeaning(b)
  {
    forall name | name == USES || name == WITH || name == ENV || name == RUN
      ensures FieldValue(a, name) == FieldValue(b, name)
    {
      ProjectedField(a, name);
      ProjectedField(b, name);
    }
  }

  /** Projections say the same exactly when the steps execute the same. */
  lemma ProjectionTells(a: Json, b: Json)
    ensures Meaning(Projection(a)) == Meaning(Projection(b)) <==> StepMeaning(a) == StepMeaning(b)
  {
    if Meaning(Projection(a)) == Meaning(Projection(b)) {
      SameProjectionSameStep(a, b);
    }
    if StepMeaning(a) == StepMeaning(b) {
      var v, w := Meaning(Projection(a)).members, Meaning(Projection(b)).members;
      forall name | name in v ensures name in w && v[name] == w[name] { SameFieldOfProjections(a, b, name); }
      forall name | name in w ensures name in v { SameFieldOfProjections(b, a, name); }
      assert v == w;
    }
  }

  /** Contracts say the same exactly when, step by step, the same is executed. */
  lemma ContractTells(a: seq<Json>, b: seq<Json>)
    ensures Meaning(Contract(a)) == Meaning(Contract(b)) <==> StepMeanings(a) == StepMeanings(b)
  {
    var u, v := Meaning(Contract(a)).items, Meaning(Contract(b)).items;
    forall i | 0 <= i < |a| && i < |b|
      ensures u[i] == v[i] <==> StepMeanings(a)[i] == StepMeanings(b)[i]
    {
      ProjectionTells(a[i], b[i]);
    }
    if u == v {
      forall i | 0 <= i < |a|
        ensures StepMeanings(a)[i] == StepMeanings(b)[i]
      {
        assert u[i] == v[i];
      }
    }
    if StepMeanings(a) == StepMeanings(b) {
      assert |a| == |StepMeanings(a)| == |b|;
      forall i | 0 <= i < |a|
        ensures u[i] == v[i]
      {
        assert StepMeanings(a)[i] == StepMeanings(b)[i];
      }
    }
  }
}
