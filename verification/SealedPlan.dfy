/**
 The plan of a native journey: written to disk after every step of preparation,
 then sealed under its own digest, and from there on changed in memory only.
 */
module SealedPlan {
  import opened Options

  /** What a step recorded; `pid` and `marker` name the service process it saw, where it saw one. */
  datatype Evidence = Evidence(text: string, pid: int, marker: string)

  datatype Row = Row(sequence: int, step: string, passed: bool, binding: string, evidence: Evidence)

  /** The fields bound by the digest.  Snapshots and inventories stand for their contents. */
  datatype Core = Core(
    candidate: string, adapter: string, binding: string, journey: string, settings: string, boot: string,
    original: string, baseline: string, wired: string, owner: string, inventory: string, directories: string,
    steps: seq<Row>)

  /** A digest is injective, so it stands for what was digested. */
  datatype Digest = Sha256(core: Core)

  datatype Saved = Saved(core: Core, seal: Option<Digest>)

  const PREPARE_STEPS := [
    "provenance", "manager-identity", "endpoint-contract", "adapter-wired", "installed", "stopped", "started",
    "restarted", "manager-recovered-owned-process", "boundary-prepared"]
  const VERIFY_STEPS := ["boundary-verified", "configuration-restored", "teardown"]

  function ServiceSteps(): seq<string> {
    PREPARE_STEPS + VERIFY_STEPS
  }

  /** The digest check made on a plan that was read back. */
  predicate Accepted(plan: Saved) {
    plan.seal.Some? && plan.seal.value == Sha256(plan.core)
  }

  /** Made for the same candidate, under the same binding, at the same boot. */
  predicate SameJourney(a: Core, b: Core) {
    && a.candidate == b.candidate && a.adapter == b.adapter && a.binding == b.binding && a.journey == b.journey
    && a.boot == b.boot && a.original == b.original
  }

  function RowFor(core: Core, step: string, evidence: Evidence): Row {
    Row(|core.steps| + 1, step, true, core.binding, evidence)
  }

  /** Rows numbered from 1, named in order, passed and bound. */
  predicate Ordered(rows: seq<Row>, names: seq<string>, binding: string) {
    |rows| == |names| &&
    forall k :: 0 <= k < |rows| ==>
      rows[k].sequence == k + 1 && rows[k].step == names[k] && rows[k].passed && rows[k].binding == binding
  }

  /** `_steps`, the check made on a published record; `shows` is the check of one step's evidence. */
  method CheckSteps(rows: seq<Row>, required: seq<string>, binding: string, shows: (string, Evidence) -> bool)
      returns (ok: bool)
    ensures ok <==> Ordered(rows, required, binding) && forall k :: 0 <= k < |rows| ==> shows(required[k], rows[k].evidence)
  {
    if |rows| != |required| { return false; }
    for k := 0 to |rows|
      invariant forall j :: 0 <= j < k ==>
                  rows[j].sequence == j + 1 && rows[j].step == required[j] && rows[j].passed && rows[j].binding == binding
      invariant forall j :: 0 <= j < k ==> shows(required[j], rows[j].evidence)
    {
      var row := rows[k];
      if row.sequence != k + 1 || row.step != required[k] || !row.passed || row.binding != binding { return false; }
      if !shows(required[k], row.evidence) { return false; }
    }
    ok := true;
  }

  /** The steps so far are the first of the required ones. */
  ghost predicate InOrder(core: Core) {
    |core.steps| <= |ServiceSteps()| && Ordered(core.steps, ServiceSteps()[..|core.steps|], core.binding)
  }

  /** The steps are in order so far and `step` is the next of them. */
  ghost predicate IsNext(core: Core, step: string) {
    InOrder(core) && |core.steps| < |ServiceSteps()| && step == ServiceSteps()[|core.steps|]
  }

  lemma StillInOrder(core: Core, step: string, evidence: Evidence)
    requires IsNext(core, step)
    ensures InOrder(core.(steps := core.steps + [RowFor(core, step, evidence)]))
  {
    var n := |core.steps|;
    assert ServiceSteps()[..n + 1] == ServiceSteps()[..n] + [step];
  }

  lemma PreparedInOrder(core: Core)
    requires InOrder(core) && |core.steps| == |PREPARE_STEPS|
    ensures Ordered(core.steps, PREPARE_STEPS, core.binding)
  {
    assert ServiceSteps()[..|PREPARE_STEPS|] == PREPARE_STEPS;
  }

  class Plan {
    var core: Core
    var seal: Option<Digest>

    constructor (core: Core, seal: Option<Digest>)
      ensures this.core == core && this.seal == seal
    {
      this.core, this.seal := core, seal;
    }

    function Copy(): Saved
      reads this
    {
      Saved(core, seal)
    }
  }

  /**
   What the outside world answers, call by call: the calls that fail and what the
   others show; `unwritable` names the writes of the plan that fail.
   */
  datatype World = World(
    failing: set<string>, unwritable: set<string>, seen: map<string, Evidence>, texts: map<string, string>) {
    predicate Fails(call: string) {
      call in failing
    }

    predicate Writes(what: string) {
      what !in unwritable
    }

    function See(call: string): Evidence {
      if call in seen then seen[call] else Evidence("", 0, "")
    }

    function Read(call: string): string {
      if call in texts then texts[call] else ""
    }
  }

  // ------------------------------------------------------------------ //
  // Which worlds let preparation succeed
  // ------------------------------------------------------------------ //

  /** One step with the service in place, running or not; its process must not be the one `former` saw. */
  datatype Stage = Stage(call: string, step: string, running: bool, former: Option<string>)

  const STAGES := [
    Stage("install", "installed", true, None),
    Stage("stop", "stopped", false, None),
    Stage("start", "started", true, Some("install")),
    Stage("restart", "restarted", true, Some("start")),
    Stage("kill", "manager-recovered-owned-process", true, Some("restart")),
    Stage("boundary", "boundary-prepared", false, None)]

  predicate Opens(w: World) {
    && !w.Fails("observe") && !w.Fails("original") && !w.Fails("definition") && !w.Fails("absent") && !w.Fails("owner")
    && w.Writes("plan") && w.Writes("provenance") && w.Writes("manager-identity") && w.Writes("endpoint-contract")
  }

  predicate Wires(w: World) {
    && !w.Fails("setup") && !w.Fails("admin-key") && !w.Fails("seed") && w.Writes("baseline")
    && !w.Fails("collision") && !w.Fails("wire") && w.Writes("adapter-wired")
    && !w.Fails("endpoints-file") && !w.Fails("still-absent")
  }

  /** A running service shows its process id and its start marker. */
  predicate Ready(e: Evidence) {
    e.pid > 0 && e.marker != ""
  }

  predicate Answers(w: World, g: Stage) {
    !w.Fails(g.call) && (g.running ==> Ready(w.See(g.call))) && (g.former.Some? ==> w.See(g.call).pid != w.See(g.former.value).pid)
  }

  predicate Reaches(w: World, k: nat)
    requires k <= |STAGES|
  {
    forall j :: 0 <= j < k ==> Answers(w, STAGES[j]) && w.Writes(STAGES[j].step)
  }

  predicate Prepares(w: World) {
    Opens(w) && Wires(w) && Reaches(w, |STAGES|) && w.Writes("seal")
  }

  /** The calls preparation makes, every one of which must answer. */
  const PREPARE_CALLS := {
    "observe", "original", "definition", "absent", "owner", "setup", "admin-key", "seed", "collision", "wire",
    "endpoints-file", "still-absent", "install", "stop", "start", "restart", "kill", "boundary"}

  /** The writes of the plan, every one of which must be made. */
  const PREPARE_WRITES := {
    "plan", "provenance", "manager-identity", "endpoint-contract", "baseline", "adapter-wired", "installed", "stopped",
    "started", "restarted", "manager-recovered-owned-process", "boundary-prepared", "seal"}

  /** A process seen after `call`, and not the one seen after `former`. */
  predicate RunsAnew(w: World, call: string, former: string) {
    w.See(call).pid > 0 && w.See(call).marker != "" && w.See(call).pid != w.See(former).pid
  }

  lemma StagesByName(w: World)
    ensures Reaches(w, |STAGES|) <==>
              && w.failing !! {"install", "stop", "start", "restart", "kill", "boundary"}
              && w.unwritable !! {"installed", "stopped", "started", "restarted", "manager-recovered-owned-process", "boundary-prepared"}
              && w.See("install").pid > 0 && w.See("install").marker != ""
              && RunsAnew(w, "start", "install") && RunsAnew(w, "restart", "start") && RunsAnew(w, "kill", "restart")
  {
    assert Reaches(w, |STAGES|) <==>
           && Answers(w, STAGES[0]) && Answers(w, STAGES[1]) && Answers(w, STAGES[2])
           && Answers(w, STAGES[3]) && Answers(w, STAGES[4]) && Answers(w, STAGES[5])
           && w.Writes(STAGES[0].step) && w.Writes(STAGES[1].step) && w.Writes(STAGES[2].step)
           && w.Writes(STAGES[3].step) && w.Writes(STAGES[4].step) && w.Writes(STAGES[5].step);
  }

  /**
   Preparation can succeed exactly where no call it makes fails, no write of the plan
   does, and the service was seen running after installing, starting, restarting and
   recovering, each of the last three times with another process id than just before.
   */
  lemma PreparesIff(w: World)
    ensures Prepares(w) <==>
              && w.failing !! PREPARE_CALLS && w.unwritable !! PREPARE_WRITES
              && w.See("install").pid > 0 && w.See("install").marker != ""
              && RunsAnew(w, "start", "install") && RunsAnew(w, "restart", "start") && RunsAnew(w, "kill", "restart")
  {
    StagesByName(w);
  }

  /** Preparation stops at a write it cannot make, with the service in place. */
  ghost predicate LosesStage(w: World) {
    exists k :: 0 <= k < |STAGES| && Reaches(w, k) && Answers(w, STAGES[k]) && !w.Writes(STAGES[k].step)
  }

  ghost predicate LosesWrite(w: World) {
    Opens(w) && Wires(w) && (LosesStage(w) || (Reaches(w, |STAGES|) && !w.Writes("seal")))
  }

  lemma StoppedAt(w: World, k: nat)
    requires k < |STAGES| && Reaches(w, k) && !Reaches(w, k + 1)
    ensures !Reaches(w, |STAGES|) && (LosesStage(w) <==> Answers(w, STAGES[k]))
  {
    forall j | 0 <= j < |STAGES| && j != k ensures !(Reaches(w, j) && !w.Writes(STAGES[j].step)) {
    }
  }

  // ------------------------------------------------------------------ //
  // Which worlds let verification succeed
  // ------------------------------------------------------------------ //

  /** The plan on disk is sealed, under this binding, and the one the record was published with. */
  predicate Loads(w: World, binding: string, record: Saved, disk: Option<Saved>) {
    disk == Some(record) && Accepted(record) && record.core.binding == binding && !w.Fails("owned")
  }

  predicate Finishes(w: World, boot: string) {
    && w.Read("boot") != boot && !w.Fails("healthy")
    && !w.Fails("unchanged") && !w.Fails("log") && !w.Fails("unwire") && !w.Fails("backups")
    && !w.Fails("uninstall") && !w.Fails("removed") && !w.Fails("config")
  }

  const VERIFY_CALLS := {
    "owned", "healthy", "unchanged", "log", "unwire", "backups", "uninstall", "removed", "config"}

  /** Verification can succeed exactly on the sealed plan of the record, after another boot, with no call failing. */
  lemma VerifiesIff(w: World, binding: string, record: Saved, disk: Option<Saved>)
    ensures Loads(w, binding, record, disk) && Finishes(w, record.core.boot) <==>
              && disk == Some(record) && record.seal == Some(Sha256(record.core)) && record.core.binding == binding
              && w.Read("boot") != record.core.boot && w.failing !! VERIFY_CALLS
  {
  }

  /** The rows that verification adds. */
  function AfterBoundary(w: World, core: Core): seq<Row> {
    var n := |core.steps|;
    [Row(n + 1, "boundary-verified", true, core.binding, w.See("healthy")),
     Row(n + 2, "configuration-restored", true, core.binding, w.See("unwire")),
     Row(n + 3, "teardown", true, core.binding, w.See("removed"))]
  }

  /** What was prepared in order is in order when it was verified, and only that. */
  lemma VerifiedInOrderIff(w: World, core: Core)
    ensures Ordered(core.steps + AfterBoundary(w, core), ServiceSteps(), core.binding)
            <==> Ordered(core.steps, PREPARE_STEPS, core.binding)
  {
    var rows := core.steps + AfterBoundary(w, core);
    assert ServiceSteps() == PREPARE_STEPS + VERIFY_STEPS;
    assert forall k :: 0 <= k < |PREPARE_STEPS| ==> ServiceSteps()[k] == PREPARE_STEPS[k];
    assert forall k :: 0 <= k < |core.steps| ==> rows[k] == core.steps[k];
  }

  /** The rows of the opening hold what was seen then. */
  predicate ShowsOpening(rows: seq<Row>, w: World) {
    && |rows| >= 3 && rows[0].evidence == w.See("provenance") && rows[1].evidence == w.See("manager")
    && rows[2].evidence == w.See("endpoints")
  }

  /** So does the row of the wiring, and those of the first `n` stages hold what their calls showed. */
  predicate Shows(rows: seq<Row>, w: World, n: nat)
    requires n <= |STAGES|
  {
    && ShowsOpening(rows, w) && |rows| >= 4 + n && rows[3].evidence == w.See("wired")
    && forall j :: 0 <= j < n ==> rows[4 + j].evidence == w.See(STAGES[j].call)
  }

  /** The plan as begun, with what was measured on the way. */
  function Measured(start: Core, w: World, steps: seq<Row>): Core {
    start.(owner := w.Read("owner"), inventory := w.Read("inventory"), baseline := w.Read("baseline"),
           wired := w.Read("wired"), directories := w.Read("wired-directories"), steps := steps)
  }

  class Journey {
    var plan: Plan?
    var rollback: Plan?
    var armed: bool
    var snapshot: Option<string>
    var disk: Option<Saved>

    constructor ()
      ensures plan == null && rollback == null && !armed && snapshot == None && disk == None
    {
      plan, rollback, armed, snapshot, disk := null, null, false, None, None;
    }

    /** The native service may be there only while the plan to roll it back with is the one on disk. */
    ghost predicate Safe()
      reads this, rollback
    {
      armed ==> rollback != null && disk == Some(rollback.Copy())
    }

    /** The plan in memory is the plan on disk. */
    ghost predicate Synced()
      reads this, plan
    {
      plan != null && disk == Some(plan.Copy())
    }

    /** Written beside and moved into place: a write that fails leaves what was there. */
    method WritePlan(world: World, what: string) returns (ok: bool)
      requires plan != null
      modifies this`disk
      ensures ok <==> world.Writes(what)
      ensures if ok then Synced() else disk == old(disk)
    {
      ok := world.Writes(what);
      if ok { disk := Some(plan.Copy()); }
    }

    /** The row is appended first, so that a write that fails leaves memory one row ahead of the disk. */
    method Record(world: World, step: string, evidence: Evidence) returns (ok: bool)
      requires plan != null
      modifies this`disk, plan
      ensures old(IsNext(plan.core, step)) ==> InOrder(plan.core)
      ensures plan.core == old(plan.core).(steps := old(plan.core.steps) + [RowFor(old(plan.core), step, evidence)])
      ensures plan.seal == old(plan.seal)
      ensures ok <==> plan.seal.Some? || world.Writes(step)
      ensures if plan.seal.None? && ok then Synced() else disk == old(disk)
    {
      if IsNext(plan.core, step) { StillInOrder(plan.core, step, evidence); }
      plan.core := plan.core.(steps := plan.core.steps + [RowFor(plan.core, step, evidence)]);
      ok := true;
      if plan.seal.None? { ok := WritePlan(world, step); }
    }

    method SealPlan(world: World) returns (ok: bool)
      requires plan != null
      modifies this`disk, plan
      ensures ok <==> old(plan.seal).None? && world.Writes("seal")
      ensures plan.core == old(plan.core)
      ensures plan.seal == if old(plan.seal).None? then Some(Sha256(plan.core)) else old(plan.seal)
      ensures if ok then Synced() && Accepted(disk.value) else disk == old(disk)
    {
      if plan.seal.Some? { return false; }
      plan.seal := Some(Sha256(plan.core));
      ok := WritePlan(world, "seal");
    }

    /** One stage with the service in place, with the call it depends on. */
    method Step(world: World, k: nat) returns (ok: bool)
      requires k < |STAGES| && Reaches(world, k)
      requires plan != null && plan.seal.None? && Synced() && rollback == plan
      requires InOrder(plan.core) && |plan.core.steps| == 4 + k && Shows(plan.core.steps, world, k)
      modifies this`disk, plan
      ensures plan.seal.None? && InOrder(plan.core) && plan.core == old(plan.core).(steps := plan.core.steps)
      ensures ok <==> Reaches(world, k + 1)
      ensures Synced() <==> ok || !Answers(world, STAGES[k])
      ensures ok ==> |plan.core.steps| == 5 + k && Shows(plan.core.steps, world, k + 1)
    {
      var stage := STAGES[k];
      if !Answers(world, stage) { return false; }
      assert ServiceSteps()[4 + k] == stage.step;
      ok := Record(world, stage.step, world.See(stage.call));
    }

    /** The plan is made, kept for a rollback, and written with its first three steps. */
    method Open(world: World, start: Core) returns (ok: bool)
      requires plan == null && rollback == null && !armed && disk == None && start.steps == []
      modifies this
      ensures !armed
      ensures ok <==> Opens(world)
      ensures ok ==> plan != null && fresh(plan) && rollback == plan && plan.seal.None? && Synced()
      ensures ok ==> InOrder(plan.core) && |plan.core.steps| == 3 && ShowsOpening(plan.core.steps, world)
      ensures ok ==> plan.core == start.(owner := world.Read("owner"), steps := plan.core.steps)
    {
      if world.Fails("observe") || world.Fails("original") { return false; }
      plan := new Plan(start, None);
      if world.Fails("definition") || world.Fails("absent") || world.Fails("owner") { return false; }
      plan.core := plan.core.(owner := world.Read("owner"));
      rollback := plan;
      ok := WritePlan(world, "plan");
      if !ok { return; }
      ok := Record(world, "provenance", world.See("provenance"));
      if !ok { return; }
      ok := Record(world, "manager-identity", world.See("manager"));
      if !ok { return; }
      ok := Record(world, "endpoint-contract", world.See("endpoints"));
    }

    /** Setup and wiring, up to the moment the native service is about to be installed. */
    method Wire(world: World) returns (ok: bool)
      requires plan != null && rollback == plan && plan.seal.None? && !armed
      requires InOrder(plan.core) && |plan.core.steps| == 3 && ShowsOpening(plan.core.steps, world)
      requires plan.core.owner == world.Read("owner")
      modifies this`snapshot, this`disk, this`armed, plan
      ensures plan.seal.None?
      ensures armed <==> ok
      ensures ok <==> Wires(world)
      ensures ok ==> Synced() && InOrder(plan.core) && |plan.core.steps| == 4 && snapshot == Some(plan.core.wired)
      ensures ok ==> Shows(plan.core.steps, world, 0) && plan.core == Measured(old(plan.core), world, plan.core.steps)
    {
      if world.Fails("setup") { return false; }
      plan.core := plan.core.(inventory := world.Read("inventory"));
      if world.Fails("admin-key") || world.Fails("seed") { return false; }
      plan.core := plan.core.(baseline := world.Read("baseline"), directories := world.Read("directories"));
      snapshot := Some(plan.core.baseline);
      ok := WritePlan(world, "baseline");
      if !ok { return; }
      if world.Fails("collision") || world.Fails("wire") { return false; }
      plan.core := plan.core.(wired := world.Read("wired"), directories := world.Read("wired-directories"));
      snapshot := Some(plan.core.wired);
      ok := Record(world, "adapter-wired", world.See("wired"));
      if !ok { return; }
      if world.Fails("endpoints-file") || world.Fails("still-absent") { return false; }
      armed := true;
    }

    /** The service is installed, stopped, started, restarted and recovered, each time as a new process. */
    method Exercise(world: World) returns (ok: bool)
      requires plan != null && rollback == plan && plan.seal.None? && Synced()
      requires InOrder(plan.core) && |plan.core.steps| == 4 && Shows(plan.core.steps, world, 0)
      modifies this`disk, plan
      ensures plan.seal.None? && InOrder(plan.core) && plan.core == old(plan.core).(steps := plan.core.steps)
      ensures ok <==> Reaches(world, |STAGES|)
      ensures Synced() <==> !LosesStage(world)
      ensures ok ==> |plan.core.steps| == |PREPARE_STEPS| && Shows(plan.core.steps, world, |STAGES|)
    {
      ok := Step(world, 0);
      if !ok { StoppedAt(world, 0); return; }
      ok := Step(world, 1);
      if !ok { StoppedAt(world, 1); return; }
      ok := Step(world, 2);
      if !ok { StoppedAt(world, 2); return; }
      ok := Step(world, 3);
      if !ok { StoppedAt(world, 3); return; }
      ok := Step(world, 4);
      if !ok { StoppedAt(world, 4); return; }
      ok := Step(world, 5);
      if !ok { StoppedAt(world, 5); }
    }

    /**
     The whole of preparation, which succeeds exactly in the worlds that let it.
     However it ends, a service that may be installed can be rolled back with the
     plan on disk, unless it ends at a write it could not make; when it succeeds,
     the plan is sealed and its steps are the required ones in order, and the
     record passes the check for new processes exactly when the world's were new.
     */
    method Prepare(world: World, start: Core) returns (ok: bool)
      requires plan == null && rollback == null && !armed && disk == None && start.steps == []
      modifies this
      ensures ok <==> Prepares(world)
      ensures armed <==> Opens(world) && Wires(world)
      ensures Safe() <==> !LosesWrite(world)
      ensures ok ==> plan != null && fresh(plan) && Synced() && Accepted(disk.value) && rollback == plan
      ensures ok ==> plan.core == Measured(start, world, plan.core.steps) && SameJourney(plan.core, start)
      ensures ok ==> snapshot == Some(world.Read("wired"))
      ensures ok ==> Ordered(plan.core.steps, PREPARE_STEPS, start.binding)
      ensures ok ==> Shows(plan.core.steps, world, |STAGES|)
      ensures ok ==> (CheckIncarnations(plan.core.steps, false) <==> AllNew(world))
    {
      ok := Open(world, start);
      if !ok { return; }
      ok := Wire(world);
      if !ok { return; }
      ok := Exercise(world);
      if !ok { return; }
      PreparedInOrder(plan.core);
      RecordShowsNewIff(plan.core.steps, world);
      ok := SealPlan(world);
    }

    /** The sealed plan is read back, checked, and kept as it is for a rollback. */
    method Load(world: World, binding: string, record: Saved) returns (ok: bool)
      requires !armed && rollback == null
      modifies this
      ensures disk == old(disk)
      ensures armed <==> ok
      ensures ok <==> Loads(world, binding, record, disk)
      ensures ok ==> plan != null && fresh(plan) && rollback != null && fresh(rollback) && plan != rollback
      ensures ok ==> disk == Some(rollback.Copy()) && disk == Some(plan.Copy()) && snapshot == Some(record.core.wired)
    {
      if disk.None? || !Accepted(disk.value) { return false; }
      plan := new Plan(disk.value.core, disk.value.seal);
      if plan.core.binding != binding || plan.Copy() != record || world.Fails("owned") { return false; }
      rollback := new Plan(plan.core, plan.seal);
      armed := true;
      snapshot := Some(plan.core.wired);
      ok := true;
    }

    /** The steps after the boundary, recorded in memory only. */
    method Finish(world: World) returns (ok: bool)
      requires plan != null && plan.seal.Some? && plan != rollback
      modifies this`snapshot, this`disk, plan
      ensures disk == old(disk)
      ensures ok <==> Finishes(world, old(plan.core.boot))
      ensures ok ==> plan.core.steps == old(plan.core.steps) + AfterBoundary(world, old(plan.core))
      ensures ok ==> snapshot == Some(old(plan.core.original))
    {
      if world.Read("boot") == plan.core.boot || world.Fails("healthy") { return false; }
      ok := Record(world, "boundary-verified", world.See("healthy"));
      if world.Fails("unchanged") || world.Fails("log") || world.Fails("unwire") || world.Fails("backups") { return false; }
      snapshot := Some(world.Read("restored"));
      ok := Record(world, "configuration-restored", world.See("unwire"));
      if world.Fails("uninstall") || world.Fails("removed") || world.Fails("config") { return false; }
      snapshot := Some(plan.core.original);
      ok := Record(world, "teardown", world.See("removed"));
    }

    /**
     Verification after the boundary, which succeeds exactly where the sealed plan on
     disk is the record's and the world answers after another boot.  The plan on disk
     is never touched; the steps extend what was prepared by the remaining three.
     */
    method Verify(world: World, binding: string, record: Saved) returns (ok: bool, steps: seq<Row>)
      requires !armed && rollback == null
      modifies this
      ensures disk == old(disk)
      ensures Safe()
      ensures armed <==> Loads(world, binding, record, disk)
      ensures ok <==> Loads(world, binding, record, disk) && Finishes(world, record.core.boot)
      ensures ok ==> steps == record.core.steps + AfterBoundary(world, record.core) && snapshot == Some(record.core.original)
    {
      steps := [];
      ok := Load(world, binding, record);
      if !ok { return; }
      ok := Finish(world);
      if !ok { return; }
      steps := plan.core.steps;
    }
  }

  // ------------------------------------------------------------------ //
  // Process incarnations
  // ------------------------------------------------------------------ //

  /** The rows that saw a running service, by position. */
  function Active(verify: bool): seq<nat> {
    if verify then [4, 6, 7, 8, 10] else [4, 6, 7, 8]
  }

  /** What a published record must show: no pid and no start marker twice. */
  predicate NewEachTime(rows: seq<Row>, verify: bool) {
    && |rows| == (if verify then 13 else 10)
    && forall i, j :: 0 <= i < j < |Active(verify)| ==>
         var a, b := rows[Active(verify)[i]].evidence, rows[Active(verify)[j]].evidence;
         a.pid != b.pid && a.marker != b.marker
  }

  /** The calls that leave a new process behind. */
  const RENEWING := ["install", "start", "restart", "kill"]

  /** In the world itself every such call left another pid and another marker. */
  predicate AllNew(w: World) {
    forall i, j :: 0 <= i < j < |RENEWING| ==>
      var a, b := w.See(RENEWING[i]), w.See(RENEWING[j]);
      a.pid != b.pid && a.marker != b.marker
  }

  function Pids(rows: seq<Row>, at: seq<nat>): seq<int>
    requires forall k :: 0 <= k < |at| ==> at[k] < |rows|
  {
    seq(|at|, k requires 0 <= k < |at| => rows[at[k]].evidence.pid)
  }

  function Markers(rows: seq<Row>, at: seq<nat>): seq<string>
    requires forall k :: 0 <= k < |at| ==> at[k] < |rows|
  {
    seq(|at|, k requires 0 <= k < |at| => rows[at[k]].evidence.marker)
  }

  function SetOf<T(==)>(values: seq<T>): set<T> {
    set v <- values
  }

  /** `len(set(values)) == len(values)` */
  predicate AllDifferent<T(==)>(values: seq<T>) {
    |SetOf(values)| == |values|
  }

  lemma {:induction false} AllDifferentIff<T>(values: seq<T>)
    ensures AllDifferent(values) <==> forall i, j :: 0 <= i < j < |values| ==> values[i] != values[j]
    ensures |SetOf(values)| <= |values|
  {
    if values != [] {
      var n := |values| - 1;
      AllDifferentIff(values[..n]);
      var before := SetOf(values[..n]);
      assert values == values[..n] + [values[n]];
      assert SetOf(values) == before + {values[n]};
      if values[n] in before {
        assert before + {values[n]} == before;
        var i :| 0 <= i < n && values[..n][i] == values[n];
        assert values[i] == values[n];
      } else {
        assert forall i :: 0 <= i < n ==> values[i] in before;
      }
    }
  }

  /** The check on a published record. */
  predicate CheckIncarnations(rows: seq<Row>, verify: bool)
    requires |rows| == if verify then 13 else 10
  {
    AllDifferent(Pids(rows, Active(verify))) && AllDifferent(Markers(rows, Active(verify)))
  }

  lemma CheckIncarnationsIff(rows: seq<Row>, verify: bool)
    requires |rows| == if verify then 13 else 10
    ensures CheckIncarnations(rows, verify) <==> NewEachTime(rows, verify)
  {
    var a := Active(verify);
    var p, m := Pids(rows, a), Markers(rows, a);
    AllDifferentIff(p);
    AllDifferentIff(m);
    assert forall k :: 0 <= k < |a| ==> p[k] == rows[a[k]].evidence.pid && m[k] == rows[a[k]].evidence.marker;
    if NewEachTime(rows, verify) {
      forall i, j | 0 <= i < j < |a| ensures p[i] != p[j] && m[i] != m[j] {
        assert rows[a[i]].evidence.pid != rows[a[j]].evidence.pid;
      }
    }
  }

  lemma ShownRows(rows: seq<Row>, w: World)
    requires Shows(rows, w, |STAGES|)
    ensures forall k :: 0 <= k < 4 ==> rows[Active(false)[k]].evidence == w.See(RENEWING[k])
  {
    var a := Active(false);
    assert STAGES[0].call == RENEWING[0] && STAGES[2].call == RENEWING[1];
    assert STAGES[3].call == RENEWING[2] && STAGES[4].call == RENEWING[3];
    assert rows[4 + 0].evidence == w.See(RENEWING[0]) && rows[4 + 2].evidence == w.See(RENEWING[1]);
    assert rows[4 + 3].evidence == w.See(RENEWING[2]) && rows[4 + 4].evidence == w.See(RENEWING[3]);
  }

  /** What a preparation recorded passes the check exactly when the world's processes were new. */
  lemma RecordShowsNewIff(rows: seq<Row>, w: World)
    requires |rows| == |PREPARE_STEPS| && Shows(rows, w, |STAGES|)
    ensures CheckIncarnations(rows, false) <==> AllNew(w)
  {
    CheckIncarnationsIff(rows, false);
    ShownRows(rows, w);
    var a := Active(false);
    assert a[0] == 4 && a[1] == 6 && a[2] == 7 && a[3] == 8;
  }

  /**
   Two pids that take turns: every check preparation makes passes, since it
   compares neighbours only, and the record it leaves is refused.
   */
  method PidsCanComeBack(start: Core) returns (world: World, rows: seq<Row>)
    requires start.steps == []
    ensures Prepares(world) && Ordered(rows, PREPARE_STEPS, start.binding)
    ensures Shows(rows, world, |STAGES|) && !CheckIncarnations(rows, false)
  {
    world := World({}, {}, map["install" := Evidence("", 7, "a"), "start" := Evidence("", 8, "b"),
                               "restart" := Evidence("", 7, "c"), "kill" := Evidence("", 8, "d")], map[]);
    var journey := new Journey();
    var ok := journey.Prepare(world, start);
    assert world.See(RENEWING[0]).pid == world.See(RENEWING[2]).pid;
    rows := journey.plan.core.steps;
  }

  /** A write that fails once the service is installed leaves a rollback whose plan is not the one on disk. */
  method FailedWriteLosesRollback(start: Core) returns (journey: Journey)
    requires start.steps == []
    ensures journey.armed && !journey.Safe()
  {
    var world := World({}, {"installed"}, map["install" := Evidence("", 7, "a")], map[]);
    journey := new Journey();
    var ok := journey.Prepare(world, start);
    assert Reaches(world, 0) && Answers(world, STAGES[0]) && !world.Writes(STAGES[0].step);
  }

  /** The process seen after the boundary is none of those seen before it. */
  predicate NewAfter(before: World, after: World) {
    forall i :: 0 <= i < |RENEWING| ==>
      var a, b := before.See(RENEWING[i]), after.See("healthy");
      a.pid != b.pid && a.marker != b.marker
  }

  lemma RecordsShowNewIff(rows: seq<Row>, core: Core, before: World, after: World)
    requires |core.steps| == |PREPARE_STEPS| && Shows(core.steps, before, |STAGES|)
    requires rows == core.steps + AfterBoundary(after, core)
    ensures CheckIncarnations(rows, true) <==> AllNew(before) && NewAfter(before, after)
  {
    CheckIncarnationsIff(rows, true);
    ShownRows(core.steps, before);
    var a := Active(true);
    assert a[0] == 4 && a[1] == 6 && a[2] == 7 && a[3] == 8 && a[4] == 10;
    assert rows[10].evidence == after.See("healthy");
    assert forall k :: 0 <= k < 4 ==> rows[a[k]].evidence == before.See(RENEWING[k]);
    NewOrNot(rows, before, after);
  }

  lemma NewOrNot(rows: seq<Row>, before: World, after: World)
    requires |rows| == 13 && rows[10].evidence == after.See("healthy")
    requires forall k :: 0 <= k < 4 ==> rows[Active(true)[k]].evidence == before.See(RENEWING[k])
    ensures NewEachTime(rows, true) <==> AllNew(before) && NewAfter(before, after)
  {
    var a := Active(true);
    assert a[4] == 10;
    if NewEachTime(rows, true) {
      forall i, j | 0 <= i < j < 4
        ensures var x, y := before.See(RENEWING[i]), before.See(RENEWING[j]); x.pid != y.pid && x.marker != y.marker
      {
        assert rows[a[i]].evidence.pid != rows[a[j]].evidence.pid;
      }
      forall i | 0 <= i < 4
        ensures var x, y := before.See(RENEWING[i]), after.See("healthy"); x.pid != y.pid && x.marker != y.marker
      {
        assert rows[a[i]].evidence.pid != rows[a[4]].evidence.pid;
      }
    }
  }

  /**
   The whole journey, across the boundary: what preparation left on disk is what a
   new process verifies.  It succeeds exactly where both worlds let their half
   succeed, its steps are all the required ones in order with the prepared ones
   first, and they pass the check for new processes exactly when all of them were.
   */
  method Travel(before: World, after: World, start: Core) returns (ok: bool, prepared: seq<Row>, steps: seq<Row>)
    requires start.steps == []
    ensures ok <==> Prepares(before) && !after.Fails("owned") && Finishes(after, start.boot)
    ensures ok ==> Ordered(prepared, PREPARE_STEPS, start.binding) && Shows(prepared, before, |STAGES|)
    ensures ok ==> Ordered(steps, ServiceSteps(), start.binding) && prepared <= steps
    ensures ok ==> (CheckIncarnations(steps, true) <==> AllNew(before) && NewAfter(before, after))
  {
    prepared, steps := [], [];
    var first := new Journey();
    ok := first.Prepare(before, start);
    if !ok { return; }
    prepared := first.plan.core.steps;
    var second := new Journey();
    second.disk := first.disk;
    ghost var core := first.plan.core;
    ok, steps := second.Verify(after, start.binding, first.disk.value);
    if ok {
      VerifiedInOrderIff(after, core);
      RecordsShowNewIff(steps, core, before, after);
    }
  }
}
