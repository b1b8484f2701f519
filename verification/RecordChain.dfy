/**
 The published records of one native journey, linked by the hashes of the files
 they were published as.
 */
module RecordChain {
  import opened Options
  import opened SealedPlan

  datatype Phase = Preparing | Verifying | Cleaning

  /** A published record; `file` stands for the hash of the file that holds it. */
  datatype Published = Published(
    phase: Phase, binding: string, journey: string, plan: Digest, steps: seq<Row>,
    prepared: string, prior: string, matched: bool, file: string)

  /** The one record of each phase. */
  function ByPhase(records: seq<Published>): map<Phase, Published> {
    if records == [] then map[]
    else
      var last := records[|records| - 1];
      ByPhase(records[..|records| - 1])[last.phase := last]
  }

  /** Each phase that occurs, with a record of that phase; as many as records if and only if none repeats. */
  ghost predicate Indexed(records: seq<Published>, found: map<Phase, Published>) {
    && (forall r :: r in records ==> r.phase in found)
    && (forall p :: p in found ==> found[p] in records && found[p].phase == p)
    && |found| <= |records|
    && (|found| == |records| <==> OnePerPhase(records))
  }

  lemma {:induction false} ByPhaseIsIndexed(records: seq<Published>)
    ensures Indexed(records, ByPhase(records))
  {
    if records != [] {
      var n := |records| - 1;
      ByPhaseIsIndexed(records[..n]);
      OneMorePhase(records[..n], records[n]);
      assert records == records[..n] + [records[n]];
      OneMoreFound(records[..n], records[n], ByPhase(records[..n]));
    }
  }

  lemma OneMoreFound(records: seq<Published>, r: Published, found: map<Phase, Published>)
    requires Indexed(records, found)
    requires OnePerPhase(records + [r]) <==> OnePerPhase(records) && forall j :: 0 <= j < |records| ==> records[j].phase != r.phase
    ensures Indexed(records + [r], found[r.phase := r])
  {
    if r.phase in found {
      assert found[r.phase := r].Keys == found.Keys;
      var j :| 0 <= j < |records| && records[j] == found[r.phase];
      assert records[j].phase == r.phase;
    } else {
      assert found[r.phase := r].Keys == found.Keys + {r.phase};
      assert forall j :: 0 <= j < |records| ==> records[j] in records;
    }
    assert |found[r.phase := r]| == |found[r.phase := r].Keys| && |found| == |found.Keys|;
  }

  predicate OnePerPhase(records: seq<Published>) {
    forall i, j :: 0 <= i < j < |records| ==> records[i].phase != records[j].phase
  }

  lemma OneMorePhase(records: seq<Published>, r: Published)
    ensures OnePerPhase(records + [r]) <==> OnePerPhase(records) && forall j :: 0 <= j < |records| ==> records[j].phase != r.phase
  {
    var all := records + [r];
    assert forall i :: 0 <= i < |records| ==> all[i] == records[i];
    if OnePerPhase(all) {
      forall j | 0 <= j < |records| ensures records[j].phase != r.phase { assert all[j].phase != all[|records|].phase; }
      forall i, j | 0 <= i < j < |records| ensures records[i].phase != records[j].phase { assert all[i].phase != all[j].phase; }
    }
  }

  /** One preparation, possibly one verification, and the cleanup that closes them. */
  predicate Linked(p: Published, v: Option<Published>, c: Published) {
    && c.prepared == p.file
    && (if v.Some? then
          && v.value.prepared == p.file
          && |p.steps| <= |v.value.steps| && v.value.steps[..|p.steps|] == p.steps
          && c.prior == v.value.file && !c.matched
        else c.prior == p.file && c.matched)
  }

  ghost predicate Agreeing(records: seq<Published>) {
    forall i, j :: 0 <= i < |records| && 0 <= j < |records| ==>
      records[i].binding == records[j].binding && records[i].journey == records[j].journey && records[i].plan == records[j].plan
  }

  ghost predicate Has(records: seq<Published>, r: Published, phase: Phase) {
    r in records && r.phase == phase
  }

  ghost predicate Chained(records: seq<Published>) {
    && OnePerPhase(records) && Agreeing(records)
    && ((|records| == 2 && exists p, c :: Has(records, p, Preparing) && Has(records, c, Cleaning) && Linked(p, None, c))
        || (|records| == 3 && exists p, v, c ::
              Has(records, p, Preparing) && Has(records, v, Verifying) && Has(records, c, Cleaning) && Linked(p, Some(v), c)))
  }

  /** The phases of one record each leave no choice. */
  lemma ChainedMeansLinked(records: seq<Published>, p: Published, c: Published)
    requires Chained(records) && Has(records, p, Preparing) && Has(records, c, Cleaning)
    ensures |records| == 2 ==> Linked(p, None, c)
    ensures |records| == 3 ==> forall v :: Has(records, v, Verifying) ==> Linked(p, Some(v), c)
  {
    forall q | Has(records, q, Preparing) ensures q == p { SamePhase(records, q, p); }
    forall q | Has(records, q, Cleaning) ensures q == c { SamePhase(records, q, c); }
    forall v, w | Has(records, v, Verifying) && Has(records, w, Verifying) ensures v == w { SamePhase(records, v, w); }
  }

  predicate SameBinding(records: seq<Published>) {
    records != [] && forall j :: 0 <= j < |records| ==> records[j].binding == records[0].binding
  }

  predicate SameJourney(records: seq<Published>, p: Published) {
    forall j :: 0 <= j < |records| ==> records[j].journey == p.journey && records[j].plan == p.plan
  }

  predicate VerifyRecords(records: seq<Published>) {
    var found := ByPhase(records);
    && SameBinding(records)
    && |found| == |records| && Preparing in found && Cleaning in found
    && |records| == (if Verifying in found then 3 else 2)
    && SameJourney(records, found[Preparing])
    && Linked(found[Preparing], if Verifying in found then Some(found[Verifying]) else None, found[Cleaning])
  }

  /** A record set is accepted exactly when it is one linked chain. */
  lemma VerifiedIffChained(records: seq<Published>)
    ensures VerifyRecords(records) <==> Chained(records)
  {
    ByPhaseIsIndexed(records);
    var found := ByPhase(records);
    if VerifyRecords(records) { VerifiedIsChained(records, found); }
    if Chained(records) { ChainedIsVerified(records, found); }
  }

  lemma VerifiedIsChained(records: seq<Published>, found: map<Phase, Published>)
    requires Indexed(records, found) && found == ByPhase(records) && VerifyRecords(records)
    ensures Chained(records)
  {
    var p, c := found[Preparing], found[Cleaning];
    assert Has(records, p, Preparing) && Has(records, c, Cleaning);
    if Verifying in found { assert Has(records, found[Verifying], Verifying); }
  }

  lemma ChainedIsVerified(records: seq<Published>, found: map<Phase, Published>)
    requires Indexed(records, found) && found == ByPhase(records) && Chained(records)
    ensures VerifyRecords(records)
  {
    var p, c := found[Preparing], found[Cleaning];
    var at :| 0 <= at < |records| && records[at] == p;
    ChainedMeansLinked(records, p, c);
    PhasesCounted(records, found);
    assert Has(records, p, Preparing) && Has(records, c, Cleaning);
  }

  lemma PhasesCounted(records: seq<Published>, found: map<Phase, Published>)
    requires |found| == |records| && Preparing in found && Cleaning in found
    ensures Verifying in found ==> |records| == 3
    ensures Verifying !in found ==> |records| == 2
  {
    forall q | q in found ensures q == Preparing || q == Verifying || q == Cleaning { }
    if Verifying in found {
      assert found.Keys == {Preparing, Cleaning, Verifying};
    } else {
      assert found.Keys == {Preparing, Cleaning};
    }
    assert |found| == |found.Keys|;
  }

  /** A linked set of records, each in the order its phase requires, is one journey under one sealed plan. */
  lemma ChainIsOneJourney(records: seq<Published>, p: Published, v: Published, c: Published, binding: string)
    requires Chained(records) && p in records && v in records && c in records
    requires p.phase == Preparing && v.phase == Verifying && c.phase == Cleaning
    requires Ordered(p.steps, PREPARE_STEPS, binding) && Ordered(v.steps, ServiceSteps(), binding)
    ensures p.plan == v.plan == c.plan && p.plan.core == v.plan.core
    ensures v.steps == p.steps + v.steps[10..] && Linked(p, Some(v), c)
    ensures forall k :: 0 <= k < 3 ==> v.steps[10 + k].step == VERIFY_STEPS[k]
  {
    ChainedMeansLinked(records, p, c);
    ThreeRecords(records, p, v, c);
    assert Has(records, v, Verifying);
    assert v.steps == v.steps[..10] + v.steps[10..];
  }

  lemma ThreeRecords(records: seq<Published>, p: Published, v: Published, c: Published)
    requires Chained(records) && p in records && v in records && c in records
    requires p.phase == Preparing && v.phase == Verifying && c.phase == Cleaning
    ensures |records| == 3
  {
    var i :| 0 <= i < |records| && records[i] == p;
    var j :| 0 <= j < |records| && records[j] == v;
    var k :| 0 <= k < |records| && records[k] == c;
  }

  lemma SamePhase(records: seq<Published>, a: Published, b: Published)
    requires OnePerPhase(records) && a in records && b in records && a.phase == b.phase
    ensures a == b
  {
    var i :| 0 <= i < |records| && records[i] == a;
    var j :| 0 <= j < |records| && records[j] == b;
  }

  /** Both bind the same journey under the same plan. */
  predicate Together(a: Published, b: Published) {
    a.binding == b.binding && a.journey == b.journey && a.plan == b.plan
  }

  lemma MembersOfThree(records: seq<Published>, p: Published, v: Published, c: Published)
    requires multiset(records) == multiset{p, v, c}
    ensures |records| == 3 && forall r :: r in records <==> r == p || r == v || r == c
  {
    assert |records| == |multiset(records)|;
    assert forall r :: r in records <==> r in multiset(records);
  }

  lemma MembersOfTwo(records: seq<Published>, p: Published, c: Published)
    requires multiset(records) == multiset{p, c}
    ensures |records| == 2 && forall r :: r in records <==> r == p || r == c
  {
    assert |records| == |multiset(records)|;
    assert forall r :: r in records <==> r in multiset(records);
  }

  /** As many records as phases, all of them there: one of each. */
  lemma ThreePhases(records: seq<Published>, p: Published, v: Published, c: Published)
    requires |records| == 3 && p in records && v in records && c in records
    requires p.phase == Preparing && v.phase == Verifying && c.phase == Cleaning
    ensures OnePerPhase(records)
  {
    var i :| 0 <= i < 3 && records[i] == p;
    var j :| 0 <= j < 3 && records[j] == v;
    var k :| 0 <= k < 3 && records[k] == c;
  }

  lemma AgreeingIff(records: seq<Published>, p: Published)
    requires p in records
    ensures Agreeing(records) <==> forall r :: r in records ==> Together(r, p)
  {
    var i :| 0 <= i < |records| && records[i] == p;
    if Agreeing(records) {
      forall r | r in records ensures Together(r, p) {
        var j :| 0 <= j < |records| && records[j] == r;
      }
    }
    if forall r :: r in records ==> Together(r, p) {
      forall j | 0 <= j < |records| ensures Together(records[j], p) { assert records[j] in records; }
    }
  }

  /**
   A preparation, a verification and a cleanup, published in any order, are accepted
   exactly if they bind one journey and plan, the verification names the preparation
   and begins with its steps, and the cleanup names both and no longer found the prepared binding.
   */
  lemma ThreeVerifiedIff(records: seq<Published>, p: Published, v: Published, c: Published)
    requires multiset(records) == multiset{p, v, c}
    requires p.phase == Preparing && v.phase == Verifying && c.phase == Cleaning
    ensures VerifyRecords(records) <==>
              && Together(v, p) && Together(c, p)
              && v.prepared == p.file && p.steps <= v.steps
              && c.prepared == p.file && c.prior == v.file && !c.matched
  {
    MembersOfThree(records, p, v, c);
    VerifiedIffChained(records);
    ThreePhases(records, p, v, c);
    AgreeingIff(records, p);
    assert Has(records, p, Preparing) && Has(records, v, Verifying) && Has(records, c, Cleaning);
    if Chained(records) { ChainedMeansLinked(records, p, c); }
  }

  /** A preparation and a cleanup alone: the cleanup names the preparation twice and found its prepared binding. */
  lemma TwoVerifiedIff(records: seq<Published>, p: Published, c: Published)
    requires multiset(records) == multiset{p, c} && p.phase == Preparing && c.phase == Cleaning
    ensures VerifyRecords(records) <==> Together(c, p) && c.prepared == p.file && c.prior == p.file && c.matched
  {
    MembersOfTwo(records, p, c);
    VerifiedIffChained(records);
    AgreeingIff(records, p);
    assert Has(records, p, Preparing) && Has(records, c, Cleaning);
    assert OnePerPhase(records);
    if Chained(records) { ChainedMeansLinked(records, p, c); }
  }
}
