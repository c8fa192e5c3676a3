/** The dataset registry's maps across reload, register and unregister, each operation
    running to its end before the next; the engine's work is an oracle. */
module Registry {
  import opened Wrappers
  import opened Config

  datatype Status = Pending | Building | Published | Failed

  /** The four maps the registry keeps per dataset name. */
  datatype Maps<S> = Maps(
    configs: map<string, Dataset>,
    schemas: map<string, S>,
    rowCounts: map<string, int>,
    statuses: map<string, Status>)

  /** The engine's answer to a build. `CutOff` is a build whose result never comes back: the
      blocking task died, or the caller's timeout dropped the future. */
  datatype Engine<S> = Built(schema: S, rows: int) | BuildError | CutOff

  datatype Reply = Done | Coalesced | NotFound | AlreadyExists | Forbidden | Invalid | EngineError | Aborted

  datatype Op<S> =
    | Reload(name: string, engine: Engine<S>)
    | TryReload(name: string, held: bool, engine: Engine<S>)
    | Register(cfg: Dataset, valid: bool, engine: Engine<S>)
    | Unregister(name: string)

  // --------------------------------------------------------------- specification

  function SetStatus<S>(m: Maps<S>, name: string, status: Status): Maps<S> {
    if name in m.statuses then m.(statuses := m.statuses[name := status]) else m
  }

  /** The last good generation keeps serving when there is one. */
  function AfterError<S>(m: Maps<S>, name: string): Maps<S> {
    SetStatus(m, name, if name in m.schemas then Published else Failed)
  }

  function Publish<S>(m: Maps<S>, name: string, schema: S, rows: int): Maps<S> {
    SetStatus(m.(schemas := m.schemas[name := schema], rowCounts := m.rowCounts[name := rows]), name, Published)
  }

  function AfterReload<S>(m: Maps<S>, name: string, engine: Engine<S>): (Maps<S>, Reply) {
    if name !in m.configs then (m, NotFound)
    else
      match engine
      case Built(schema, rows) => (Publish(m, name, schema, rows), Done)
      case BuildError => (AfterError(m, name), EngineError)
      case CutOff => (SetStatus(m, name, Building), Aborted)
  }

  function AfterRegister<S>(m: Maps<S>, cfg: Dataset, valid: bool, engine: Engine<S>): (Maps<S>, Reply) {
    if !valid then (m, Invalid)
    else if cfg.name in m.schemas then (m, AlreadyExists)
    else
      match engine
      case BuildError => (m, EngineError)
      case CutOff => (m, Aborted)
      case Built(schema, rows) =>
        (Maps(m.configs[cfg.name := cfg], m.schemas[cfg.name := schema],
              m.rowCounts[cfg.name := rows], m.statuses[cfg.name := Published]), Done)
  }

  function AfterUnregister<S>(m: Maps<S>, name: string): (Maps<S>, Reply) {
    if name !in m.configs then (m, NotFound)
    else if !m.configs[name].managed then (m, Forbidden)
    else (Maps(m.configs - {name}, m.schemas - {name}, m.rowCounts - {name}, m.statuses - {name}), Done)
  }

  function After<S>(m: Maps<S>, op: Op<S>): (Maps<S>, Reply) {
    match op
    case Reload(name, engine) => AfterReload(m, name, engine)
    case TryReload(name, held, engine) =>
      if name in m.configs && held then (m, Reply.Coalesced) else AfterReload(m, name, engine)
    case Register(cfg, valid, engine) => AfterRegister(m, cfg, valid, engine)
    case Unregister(name) => AfterUnregister(m, name)
  }

  // ------------------------------------------------------------------- the class

  class Registry<S> {
    var configs: map<string, Dataset>
    var schemas: map<string, S>
    var rowCounts: map<string, int>
    var statuses: map<string, Status>

    function View(): Maps<S>
      reads this
    {
      Maps(configs, schemas, rowCounts, statuses)
    }

    constructor (m: Maps<S>)
      ensures View() == m
    {
      configs, schemas, rowCounts, statuses := m.configs, m.schemas, m.rowCounts, m.statuses;
    }

    method SetStatusOf(name: string, status: Status)
      modifies this`statuses
      ensures View() == SetStatus(old(View()), name, status)
    {
      if name in statuses { statuses := statuses[name := status]; }
    }

    /** The core reload: mark building, run the engine, swap the result in or fall back. */
    method ReloadInner(name: string, engine: Engine<S>) returns (reply: Reply)
      requires name in configs
      modifies this`schemas, this`rowCounts, this`statuses
      ensures (View(), reply) == AfterReload(old(View()), name, engine)
    {
      SetStatusOf(name, Building);
      match engine
      case CutOff =>
        return Aborted;
      case BuildError =>
        var fallback := if name in schemas then Published else Failed;
        SetStatusOf(name, fallback);
        assert name in old(statuses) ==> statuses == old(statuses)[name := fallback];
        return EngineError;
      case Built(schema, rows) =>
        schemas := schemas[name := schema];
        rowCounts := rowCounts[name := rows];
        SetStatusOf(name, Published);
        assert name in old(statuses) ==> statuses == old(statuses)[name := Published];
        return Done;
    }

    method Reload(name: string, engine: Engine<S>) returns (reply: Reply)
      modifies this
      ensures (View(), reply) == After(old(View()), Op.Reload(name, engine))
    {
      if name !in configs { return NotFound; }
      reply := ReloadInner(name, engine);
    }

    /** `held` says whether the per-dataset reload lock is taken. */
    method TryReload(name: string, held: bool, engine: Engine<S>) returns (reply: Reply)
      modifies this
      ensures (View(), reply) == After(old(View()), Op.TryReload(name, held, engine))
    {
      if name !in configs { return NotFound; }
      if held { return Coalesced; }
      reply := ReloadInner(name, engine);
    }

    method Register(cfg: Dataset, valid: bool, engine: Engine<S>) returns (reply: Reply)
      modifies this
      ensures (View(), reply) == After(old(View()), Op.Register(cfg, valid, engine))
    {
      if !valid { return Invalid; }
      if cfg.name in schemas { return AlreadyExists; }
      match engine
      case CutOff => return Aborted;
      case BuildError => return EngineError;
      case Built(schema, rows) =>
        schemas := schemas[cfg.name := schema];
        rowCounts := rowCounts[cfg.name := rows];
        configs := configs[cfg.name := cfg];
        statuses := statuses[cfg.name := Published];
        return Done;
    }

    method Unregister(name: string) returns (reply: Reply)
      modifies this
      ensures (View(), reply) == After(old(View()), Op.Unregister(name))
    {
      if name !in configs { return NotFound; }
      if !configs[name].managed { return Forbidden; }
      schemas := schemas - {name};
      rowCounts := rowCounts - {name};
      configs := configs - {name};
      statuses := statuses - {name};
      return Done;
    }
  }

  // ------------------------------------------------------------------ invariants

  /** Of one name: schema and row count go together, status and configuration go together, a
      schema implies a configuration, and the status fits. */
  predicate Fits<S>(m: Maps<S>, n: string) {
    && (n in m.schemas <==> n in m.rowCounts)
    && (n in m.statuses <==> n in m.configs)
    && (n in m.schemas ==> n in m.configs)
    && (n in m.statuses ==> StatusFits(m.statuses[n], n in m.schemas))
  }

  /** A dataset without a schema is never published; one with a schema is published, or
      building after a build that was cut off. */
  predicate StatusFits(status: Status, served: bool) {
    if served then status.Published? || status.Building? else status.Failed? || status.Building?
  }

  ghost predicate LockStep<S(!new)>(m: Maps<S>) {
    forall n :: Fits(m, n)
  }

  lemma LockStepKeys<S(!new)>(m: Maps<S>)
    requires LockStep(m)
    ensures m.schemas.Keys == m.rowCounts.Keys
    ensures m.statuses.Keys == m.configs.Keys
    ensures m.schemas.Keys <= m.configs.Keys
  {
    forall n ensures (n in m.schemas <==> n in m.rowCounts) && (n in m.statuses <==> n in m.configs) {
      assert Fits(m, n);
    }
    forall n | n in m.schemas ensures n in m.configs { assert Fits(m, n); }
  }

  lemma FitsKept<S(!new)>(m: Maps<S>, op: Op<S>, n: string)
    requires Fits(m, n)
    ensures Fits(After(m, op).0, n)
  {
    if n != NameOf(op) { OthersUntouched(m, op, n); }
  }

  ghost function RunOps<S>(m: Maps<S>, ops: seq<Op<S>>): Maps<S>
    decreases ops
  {
    if ops == [] then m else After(RunOps(m, ops[..|ops| - 1]), ops[|ops| - 1]).0
  }

  ghost function ReplyTo<S>(m: Maps<S>, ops: seq<Op<S>>, i: nat): Reply
    requires i < |ops|
  {
    After(RunOps(m, ops[..i]), ops[i]).1
  }

  lemma {:induction false} LockStepAlways<S(!new)>(m: Maps<S>, ops: seq<Op<S>>)
    requires LockStep(m)
    ensures LockStep(RunOps(m, ops))
    decreases ops
  {
    if ops != [] {
      var front := RunOps(m, ops[..|ops| - 1]);
      LockStepAlways(m, ops[..|ops| - 1]);
      forall n ensures Fits(RunOps(m, ops), n) {
        assert Fits(front, n);
        FitsKept(front, ops[|ops| - 1], n);
      }
    }
  }

  /** An operation on one name leaves every other dataset alone. */
  lemma OthersUntouched<S>(m: Maps<S>, op: Op<S>, n: string)
    requires n != NameOf(op)
    ensures var t := After(m, op).0;
            && Lookup(t.configs, n) == Lookup(m.configs, n) && Lookup(t.schemas, n) == Lookup(m.schemas, n)
            && Lookup(t.rowCounts, n) == Lookup(m.rowCounts, n) && Lookup(t.statuses, n) == Lookup(m.statuses, n)
  {
  }

  function NameOf<S>(op: Op<S>): string {
    match op
    case Reload(name, _) => name
    case TryReload(name, _, _) => name
    case Register(cfg, _, _) => cfg.name
    case Unregister(name) => name
  }

  function Lookup<V>(m: map<string, V>, n: string): Option<V> {
    if n in m then Some(m[n]) else None
  }

  /** A failing reload of a published dataset changes nothing: schema, row count and status stay. */
  lemma FailedReloadKeepsLastGood<S(!new)>(m: Maps<S>, name: string)
    requires LockStep(m) && name in m.statuses && m.statuses[name].Published?
    ensures After(m, Reload(name, BuildError)) == (m, EngineError)
    ensures After(m, TryReload(name, false, BuildError)) == (m, EngineError)
  {
    assert Fits(m, name);
    assert m.statuses[name := Published] == m.statuses;
  }

  // -------------------------------------------- when a dataset is published exactly

  /** The last operation to get past its checks was a reload that was cut off. */
  ghost predicate LastCutOff<S>(m: Maps<S>, ops: seq<Op<S>>, n: string)
    decreases ops
  {
    ops != [] &&
    var k := |ops| - 1;
    if NameOf(ops[k]) == n && Took(ops[k], ReplyTo(m, ops, k)) then ReplyTo(m, ops, k) == Aborted
    else LastCutOff(m, ops[..k], n)
  }

  /** The operation reached the point where it changes the maps. */
  predicate Took<S>(op: Op<S>, reply: Reply) {
    reply.Done? || (!op.Register? && (reply.EngineError? || reply.Aborted?))
  }

  ghost predicate NoneBuilding<S(!new)>(m: Maps<S>) {
    forall n :: n in m.statuses ==> !m.statuses[n].Building?
  }

  /** One operation makes a dataset building exactly when it is a cut-off reload that took effect. */
  lemma BuildingStep<S(!new)>(m: Maps<S>, op: Op<S>, n: string)
    requires Fits(m, n)
    ensures var (t, reply) := After(m, op);
            n in t.statuses ==>
              if NameOf(op) == n && Took(op, reply) then t.statuses[n].Building? <==> reply.Aborted?
              else n in m.statuses && t.statuses[n] == m.statuses[n]
  {
    if n != NameOf(op) { OthersUntouched(m, op, n); }
  }

  /** Over every sequence of completed operations from a settled registry, a dataset is stuck
      building exactly when the last operation that took effect on it was a cut-off reload;
      in every other case it is published exactly when it has a schema, and failed otherwise. */
  lemma {:induction false} PublishedExactly<S(!new)>(m: Maps<S>, ops: seq<Op<S>>, n: string)
    requires LockStep(m) && NoneBuilding(m)
    ensures var t := RunOps(m, ops);
            n in t.statuses ==>
              && (t.statuses[n].Building? <==> LastCutOff(m, ops, n))
              && (!LastCutOff(m, ops, n) ==> (t.statuses[n].Published? <==> n in t.schemas))
              && (!LastCutOff(m, ops, n) ==> (t.statuses[n].Failed? <==> n !in t.schemas))
    decreases ops
  {
    LockStepAlways(m, ops);
    assert Fits(RunOps(m, ops), n);
    if ops != [] {
      var k := |ops| - 1;
      PublishedExactly(m, ops[..k], n);
      LockStepAlways(m, ops[..k]);
      assert Fits(RunOps(m, ops[..k]), n);
      BuildingStep(RunOps(m, ops[..k]), ops[k], n);
    }
  }

  /** A published dataset whose reload is cut off stays building, with its last good schema. */
  lemma CutOffLeavesBuilding<S(!new)>(schema: S, cfg: Dataset)
    ensures var m := Maps(map["d" := cfg], map["d" := schema], map["d" := 1], map["d" := Published]);
            && LockStep(m) && NoneBuilding(m)
            && RunOps(m, [Reload("d", CutOff)]) == m.(statuses := map["d" := Building])
  {
    var m := Maps(map["d" := cfg], map["d" := schema], map["d" := 1], map["d" := Published]);
    var ops: seq<Op<S>> := [Reload("d", CutOff)];
    assert ops[..0] == [];
    assert m.statuses["d" := Building] == map["d" := Building];
  }

  /** What a query sees as ready is always backed by a schema and a row count. */
  lemma ReadyIsServed<S(!new)>(m: Maps<S>, ops: seq<Op<S>>, n: string)
    requires LockStep(m)
    requires n in RunOps(m, ops).statuses && RunOps(m, ops).statuses[n].Published?
    ensures var t := RunOps(m, ops); n in t.schemas && n in t.rowCounts && n in t.configs
  {
    LockStepAlways(m, ops);
    assert Fits(RunOps(m, ops), n);
  }

  // ------------------------------------------------------------- what is being served

  datatype Served<S> = Nothing | Serving(schema: S, rows: int)

  function ServedBy<S>(m: Maps<S>, n: string): Served<S> {
    if n in m.schemas && n in m.rowCounts then Serving(m.schemas[n], m.rowCounts[n]) else Nothing
  }

  /** What the last successful build left, replaying the operations that replied success. */
  ghost function LastGood<S>(m: Maps<S>, ops: seq<Op<S>>, n: string): Served<S>
    decreases ops
  {
    if ops == [] then ServedBy(m, n)
    else
      var k := |ops| - 1;
      if NameOf(ops[k]) != n || ReplyTo(m, ops, k) != Done then LastGood(m, ops[..k], n)
      else if ops[k].Unregister? then Nothing
      else if ops[k].engine.Built? then Serving(ops[k].engine.schema, ops[k].engine.rows)
      else Nothing
  }

  lemma ServedStep<S(!new)>(m: Maps<S>, op: Op<S>, n: string)
    requires Fits(m, n)
    ensures var (t, reply) := After(m, op);
            ServedBy(t, n) ==
              if NameOf(op) != n || reply != Done then ServedBy(m, n)
              else if op.Unregister? then Nothing
              else if op.engine.Built? then Serving(op.engine.schema, op.engine.rows)
              else Nothing
  {
    if n != NameOf(op) { OthersUntouched(m, op, n); }
  }

  /** Over every sequence of completed operations the schema and row count served for a dataset are
      those of its last successful build: failures and cut-off builds never replace or lose them. */
  lemma {:induction false} ServesLastGood<S(!new)>(m: Maps<S>, ops: seq<Op<S>>, n: string)
    requires LockStep(m)
    ensures ServedBy(RunOps(m, ops), n) == LastGood(m, ops, n)
    decreases ops
  {
    if ops != [] {
      var k := |ops| - 1;
      ServesLastGood(m, ops[..k], n);
      LockStepAlways(m, ops[..k]);
      assert Fits(RunOps(m, ops[..k]), n);
      ServedStep(RunOps(m, ops[..k]), ops[k], n);
    }
  }

  // ---------------------------------------------------------------------- refusals

  predicate IsRefusal(reply: Reply) {
    reply.NotFound? || reply.Coalesced? || reply.Forbidden? || reply.Invalid? || reply.AlreadyExists?
  }

  /** When each operation is refused, by the configuration, the schemas and the lock alone. */
  lemma RefusedExactly<S(!new)>(m: Maps<S>, op: Op<S>)
    ensures var reply, n := After(m, op).1, NameOf(op);
            && (reply.NotFound? <==> !op.Register? && n !in m.configs)
            && (reply.Coalesced? <==> op.TryReload? && n in m.configs && op.held)
            && (reply.Forbidden? <==> op.Unregister? && n in m.configs && !m.configs[n].managed)
            && (reply.Invalid? <==> op.Register? && !op.valid)
            && (reply.AlreadyExists? <==> op.Register? && op.valid && n in m.schemas)
    ensures var reply := After(m, op).1;
            !IsRefusal(reply) ==>
              if op.Unregister? || op.engine.Built? then reply.Done?
              else if op.engine.BuildError? then reply.EngineError?
              else reply.Aborted?
  {
  }

  /** A refusal changes nothing, and neither does a registration whose build does not succeed. */
  lemma RefusalChangesNothing<S(!new)>(m: Maps<S>, op: Op<S>)
    requires IsRefusal(After(m, op).1) || (op.Register? && !After(m, op).1.Done?)
    ensures After(m, op).0 == m
  {
  }

  /** The configuration under a name, replaying the registrations and removals that were not refused. */
  ghost function LastConfig<S>(m: Maps<S>, ops: seq<Op<S>>, n: string): Option<Dataset>
    decreases ops
  {
    if ops == [] then Lookup(m.configs, n)
    else
      var k := |ops| - 1;
      if NameOf(ops[k]) == n && ReplyTo(m, ops, k).Done? && ops[k].Register? then Some(ops[k].cfg)
      else if NameOf(ops[k]) == n && ReplyTo(m, ops, k).Done? && ops[k].Unregister? then None
      else LastConfig(m, ops[..k], n)
  }

  /** Only registering and unregistering change which datasets there are, and how they are configured. */
  lemma {:induction false} ConfigsExactly<S(!new)>(m: Maps<S>, ops: seq<Op<S>>, n: string)
    ensures Lookup(RunOps(m, ops).configs, n) == LastConfig(m, ops, n)
    decreases ops
  {
    if ops != [] {
      var k := |ops| - 1;
      ConfigsExactly(m, ops[..k], n);
      if NameOf(ops[k]) != n { OthersUntouched(RunOps(m, ops[..k]), ops[k], n); }
    }
  }

  /** A dataset from the configuration file that is served can be neither removed nor replaced. */
  lemma {:induction false} UnmanagedStays<S(!new)>(m: Maps<S>, ops: seq<Op<S>>, n: string)
    requires n in m.configs && !m.configs[n].managed && n in m.schemas
    ensures var t := RunOps(m, ops); n in t.configs && t.configs[n] == m.configs[n] && n in t.schemas
    decreases ops
  {
    if ops != [] {
      var k := |ops| - 1;
      UnmanagedStays(m, ops[..k], n);
      if NameOf(ops[k]) != n { OthersUntouched(RunOps(m, ops[..k]), ops[k], n); }
    }
  }
}
