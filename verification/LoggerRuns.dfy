/** Shared loggers: fields and verbosity nest, forks copy, a frozen logger refuses, and nesting is capped. */
module LoggerRuns {
  import opened Base
  import opened LogFields

  const MAX_NESTING: nat := 1000
  const U32_MAX: nat := 0xFFFF_FFFF

  /** A logger over the root drain: one nesting per `add_fields` and per `set_verbosity`. */
  datatype Logger =
    | Root(verbosity: nat)
    | WithFields(fields: seq<Field>, parent: Logger)
    | WithVerbosity(verbosity: nat, list: Logger)

  /** How deep serializing the logger's fields recurses. */
  function Depth(l: Logger): nat {
    match l
    case Root(_) => 0
    case WithFields(_, parent) => 1 + Depth(parent)
    case WithVerbosity(_, list) => 1 + Depth(list)
  }

  /** All fields in the order they were added. */
  function Added(l: Logger): seq<Field> {
    match l
    case Root(_) => []
    case WithFields(fields, parent) => Added(parent) + fields
    case WithVerbosity(_, list) => Added(list)
  }

  /** Serialization is most recent first, also through a list kept by `set_verbosity`. */
  function Serialized(l: Logger): seq<Field> {
    match l
    case Root(_) => []
    case WithFields(fields, parent) => Reversed(fields) + Serialized(parent)
    case WithVerbosity(_, list) => Serialized(list)
  }

  function VerbosityOf(l: Logger): nat {
    match l
    case Root(verbosity) => verbosity
    case WithFields(_, parent) => VerbosityOf(parent)
    case WithVerbosity(verbosity, _) => verbosity
  }

  lemma {:induction false} SerializedIsReversed(l: Logger)
    ensures Serialized(l) == Reversed(Added(l))
  {
    match l
    case Root(_) =>
    case WithFields(fields, parent) =>
      SerializedIsReversed(parent);
      ReversedAppend(Added(parent), fields);
    case WithVerbosity(_, list) => SerializedIsReversed(list);
  }

  // ---- one logger -----------------------------------------------------------------------------

  /** `reports` counts how often the nesting limit was reported, by panic or by log record. */
  datatype Log = Log(inner: Logger, nestingLevel: nat, frozen: bool, reports: nat)

  datatype Mutation = AddFields(fields: seq<Field>) | SetVerbosity(verbosity: nat)

  /** What the caller sees: done, silently skipped, an error logged and skipped, or a panic. */
  datatype Outcome = Done | Skipped | Logged | Panicked

  /** The two cargo features. */
  datatype Features = Features(panicOnFrozen: bool, panicOnNesting: bool)

  function Applied(inner: Logger, m: Mutation): Logger {
    match m
    case AddFields(fields) => WithFields(fields, inner)
    case SetVerbosity(verbosity) => WithVerbosity(verbosity, inner)
  }

  /** The logger after a mutation was attempted. */
  function Mutated(log: Log, m: Mutation): Log {
    if log.frozen then log
    else
      var level := if log.nestingLevel < U32_MAX then log.nestingLevel + 1 else U32_MAX;
      if level < MAX_NESTING then log.(inner := Applied(log.inner, m), nestingLevel := level)
      else if level == MAX_NESTING then log.(nestingLevel := level, reports := log.reports + 1)
      else log.(nestingLevel := level)
  }

  class SharedLog {
    var inner: Logger
    var nestingLevel: nat
    var frozen: bool
    ghost var reports: nat

    ghost function Value(): Log
      reads this
    {
      Log(inner, nestingLevel, frozen, reports)
    }

    constructor (inner: Logger)
      ensures Value() == Log(inner, 0, false, 0)
    {
      this.inner, nestingLevel, frozen, reports := inner, 0, false, 0;
    }

    constructor Clone(inner: Logger, nestingLevel: nat, frozen: bool)
      ensures Value() == Log(inner, nestingLevel, frozen, 0)
    {
      this.inner, this.nestingLevel, this.frozen, reports := inner, nestingLevel, frozen, 0;
    }

    /** `check_frozen`: `Done` lets the caller proceed. */
    method CheckFrozen(features: Features) returns (outcome: Outcome)
      ensures outcome == if !frozen then Done else if features.panicOnFrozen then Panicked else Logged
    {
      if !frozen {
        return Done;
      }
      outcome := if features.panicOnFrozen then Panicked else Logged;
    }

    /** `check_nesting_level`: counts the attempt, and lets the caller proceed below the limit. */
    method CheckNestingLevel(features: Features) returns (outcome: Outcome)
      requires nestingLevel <= U32_MAX
      modifies this
      ensures nestingLevel == if old(nestingLevel) < 4294967295 then old(nestingLevel) + 1 else 4294967295
      ensures inner == old(inner) && frozen == old(frozen)
      ensures reports == old(reports) + if old(nestingLevel) == 999 then 1 else 0
      ensures outcome == if old(nestingLevel) < 999 then Done
                         else if old(nestingLevel) > 999 then Skipped
                         else if features.panicOnNesting then Panicked else Logged
    {
      nestingLevel := if nestingLevel < U32_MAX then nestingLevel + 1 else U32_MAX;
      if nestingLevel < MAX_NESTING {
        return Done;
      }
      if nestingLevel == MAX_NESTING {
        reports := reports + 1;
        return if features.panicOnNesting then Panicked else Logged;
      }
      return Skipped;
    }

    method AddLogFields(fields: seq<Field>, features: Features) returns (outcome: Outcome)
      requires nestingLevel <= U32_MAX
      modifies this
      ensures Value() == Mutated(old(Value()), AddFields(fields))
      ensures outcome == if old(frozen) then (if features.panicOnFrozen then Panicked else Logged)
                         else if old(nestingLevel) < 999 then Done
                         else if old(nestingLevel) > 999 then Skipped
                         else if features.panicOnNesting then Panicked else Logged
    {
      outcome := CheckFrozen(features);
      if outcome != Done {
        return;
      }
      outcome := CheckNestingLevel(features);
      if outcome != Done {
        return;
      }
      inner := WithFields(fields, inner);
    }

    method SetLogVerbosity(verbosity: nat, features: Features) returns (outcome: Outcome)
      requires nestingLevel <= U32_MAX
      modifies this
      ensures Value() == Mutated(old(Value()), SetVerbosity(verbosity))
      ensures outcome == if old(frozen) then (if features.panicOnFrozen then Panicked else Logged)
                         else if old(nestingLevel) < 999 then Done
                         else if old(nestingLevel) > 999 then Skipped
                         else if features.panicOnNesting then Panicked else Logged
    {
      outcome := CheckFrozen(features);
      if outcome != Done {
        return;
      }
      outcome := CheckNestingLevel(features);
      if outcome != Done {
        return;
      }
      inner := WithVerbosity(verbosity, inner);
    }

    method Fork() returns (log: SharedLog)
      ensures fresh(log) && log.Value() == Value().(frozen := false, reports := 0)
    {
      log := new SharedLog.Clone(inner, nestingLevel, frozen);
      log.frozen := false;
    }

    method Freeze()
      modifies this`frozen
      ensures frozen
    {
      frozen := true;
    }

    method Unfreeze()
      modifies this`frozen
      ensures !frozen
    {
      frozen := false;
    }

    /** A record's context fields, through the drains. */
    method Emit(redactedKeys: set<string>) returns (emitted: seq<Field>)
      ensures emitted == Reversed(Surviving(Added(inner), redactedKeys))
    {
      SerializedIsReversed(inner);
      EmittedAreSurviving(Added(inner), redactedKeys);
      emitted := LogThroughDrains(Serialized(inner), redactedKeys);
    }
  }

  // ---- runs over a tree of forked loggers --------------------------------------------------------

  /** One locked operation on one of the loggers; a fork adds a logger at the end. */
  datatype Op = Mutate(target: nat, m: Mutation) | Fork(target: nat) | Freeze(target: nat) | Unfreeze(target: nat)

  function Step(logs: seq<Log>, op: Op): seq<Log>
    requires op.target < |logs|
  {
    var log := logs[op.target];
    match op
    case Mutate(i, m) => logs[i := Mutated(log, m)]
    case Fork(_) => logs + [log.(frozen := false, reports := 0)]
    case Freeze(i) => logs[i := log.(frozen := true)]
    case Unfreeze(i) => logs[i := log.(frozen := false)]
  }

  ghost predicate IsRun(verbosity: nat, runs: seq<seq<Log>>, ops: seq<Op>) {
    && |runs| == |ops| + 1
    && runs[0] == [Log(Root(verbosity), 0, false, 0)]
    && forall k :: 0 <= k < |ops| ==> ops[k].target < |runs[k]| && runs[k + 1] == Step(runs[k], ops[k])
  }

  /** The level counts every attempt, the logger nests below the limit only, and the limit is reported once. */
  predicate Sound(log: Log) {
    && log.nestingLevel <= U32_MAX
    && Depth(log.inner) == Min(log.nestingLevel, MAX_NESTING - 1)
    && log.reports <= 1
    && (log.nestingLevel < MAX_NESTING ==> log.reports == 0)
  }

  lemma MutatedIsSound(log: Log, m: Mutation)
    requires Sound(log)
    ensures Sound(Mutated(log, m))
  {
  }

  lemma StepKeepsSound(logs: seq<Log>, op: Op)
    requires op.target < |logs| && forall i :: 0 <= i < |logs| ==> Sound(logs[i])
    ensures forall i :: 0 <= i < |Step(logs, op)| ==> Sound(Step(logs, op)[i])
  {
    if op.Mutate? {
      MutatedIsSound(logs[op.target], op.m);
    }
  }

  lemma {:induction false} RunIsSound(verbosity: nat, runs: seq<seq<Log>>, ops: seq<Op>, k: nat, i: nat)
    requires IsRun(verbosity, runs, ops) && k < |runs| && i < |runs[k]|
    ensures Sound(runs[k][i])
  {
    if k > 0 {
      var before := runs[k - 1];
      forall j | 0 <= j < |before| ensures Sound(before[j]) {
        RunIsSound(verbosity, runs, ops, k - 1, j);
      }
      StepKeepsSound(before, ops[k - 1]);
      assert runs[k - 1 + 1] == Step(runs[k - 1], ops[k - 1]);
    }
  }

  /** In every run no logger, forked or not, nests deeper than 999, and none reports the limit twice. */
  lemma NestingIsCapped(verbosity: nat, runs: seq<seq<Log>>, ops: seq<Op>, k: nat, i: nat)
    requires IsRun(verbosity, runs, ops) && k < |runs| && i < |runs[k]|
    ensures Depth(runs[k][i].inner) <= 999 && runs[k][i].reports <= 1
    ensures Depth(runs[k][i].inner) == if runs[k][i].nestingLevel < 1000 then runs[k][i].nestingLevel else 999
    ensures runs[k][i].nestingLevel < 1000 ==> runs[k][i].reports == 0
  {
    RunIsSound(verbosity, runs, ops, k, i);
  }

  /** A frozen logger keeps its fields, verbosity, level and reports until it is unfrozen, whatever else happens. */
  lemma {:induction false} FrozenStays(verbosity: nat, runs: seq<seq<Log>>, ops: seq<Op>, j: nat, k: nat, i: nat)
    requires IsRun(verbosity, runs, ops) && j <= k < |runs|
    requires i < |runs[j]| && runs[j][i].frozen
    requires forall n :: j <= n < k ==> ops[n] != Unfreeze(i)
    ensures i < |runs[k]| && runs[k][i] == runs[j][i]
  {
    if j < k {
      FrozenStays(verbosity, runs, ops, j, k - 1, i);
      assert runs[k - 1 + 1] == Step(runs[k - 1], ops[k - 1]);
    }
  }

  /** Once a logger has reached the limit nothing is added to it again, and nothing more is reported. */
  lemma {:induction false} LimitIsFinal(verbosity: nat, runs: seq<seq<Log>>, ops: seq<Op>, j: nat, k: nat, i: nat)
    requires IsRun(verbosity, runs, ops) && j <= k < |runs|
    requires i < |runs[j]| && runs[j][i].nestingLevel >= MAX_NESTING
    ensures i < |runs[k]| && runs[k][i].inner == runs[j][i].inner && runs[k][i].reports == runs[j][i].reports
    ensures MAX_NESTING <= runs[k][i].nestingLevel
  {
    if j < k {
      LimitIsFinal(verbosity, runs, ops, j, k - 1, i);
      assert runs[k - 1 + 1] == Step(runs[k - 1], ops[k - 1]);
    }
  }

  // ---- a logger is its lineage's history -----------------------------------------------------------

  /** The logger is unfrozen and below the limit. */
  predicate Accepts(log: Log) {
    !log.frozen && log.nestingLevel < 999
  }

  /** What was added along the lineage of logger `i` by calls it or an ancestor accepted, in order. */
  ghost function FieldsAlong(runs: seq<seq<Log>>, ops: seq<Op>, k: nat, i: nat): seq<Field>
    requires k <= |ops| && |runs| == |ops| + 1
    decreases k
  {
    if k == 0 then []
    else
      var op, before := ops[k - 1], runs[k - 1];
      if i >= |before| then FieldsAlong(runs, ops, k - 1, op.target)
      else if op.Mutate? && op.target == i && op.m.AddFields? && Accepts(before[i])
      then FieldsAlong(runs, ops, k - 1, i) + op.m.fields
      else FieldsAlong(runs, ops, k - 1, i)
  }

  /** The verbosity set last along the lineage by a call that was accepted. */
  ghost function VerbosityAlong(verbosity: nat, runs: seq<seq<Log>>, ops: seq<Op>, k: nat, i: nat): nat
    requires k <= |ops| && |runs| == |ops| + 1
    decreases k
  {
    if k == 0 then verbosity
    else
      var op, before := ops[k - 1], runs[k - 1];
      if i >= |before| then VerbosityAlong(verbosity, runs, ops, k - 1, op.target)
      else if op.Mutate? && op.target == i && op.m.SetVerbosity? && Accepts(before[i]) then op.m.verbosity
      else VerbosityAlong(verbosity, runs, ops, k - 1, i)
  }

  /** Frozen or unfrozen by its last operation of that kind; a fork starts unfrozen. */
  ghost function FrozenAlong(runs: seq<seq<Log>>, ops: seq<Op>, k: nat, i: nat): bool
    requires k <= |ops| && |runs| == |ops| + 1
  {
    if k == 0 || i >= |runs[k - 1]| then false
    else if ops[k - 1] == Freeze(i) then true
    else if ops[k - 1] == Unfreeze(i) then false
    else FrozenAlong(runs, ops, k - 1, i)
  }

  /** How many calls were made along the lineage while unfrozen. */
  ghost function AttemptsAlong(runs: seq<seq<Log>>, ops: seq<Op>, k: nat, i: nat): nat
    requires k <= |ops| && |runs| == |ops| + 1
    decreases k
  {
    if k == 0 then 0
    else
      var op, before := ops[k - 1], runs[k - 1];
      if i >= |before| then AttemptsAlong(runs, ops, k - 1, op.target)
      else AttemptsAlong(runs, ops, k - 1, i)
           + if op.Mutate? && op.target == i && !FrozenAlong(runs, ops, k - 1, i) then 1 else 0
  }

  ghost function Forks(ops: seq<Op>): nat {
    if ops == [] then 0 else Forks(ops[..|ops| - 1]) + if ops[|ops| - 1].Fork? then 1 else 0
  }

  /**
   A logger's state from the operations alone: the loggers are the root and one per
   fork, frozen as last asked, and the level is the number of attempts along the lineage.
   */
  lemma {:induction false} LoggerCountsItsLineage(verbosity: nat, runs: seq<seq<Log>>, ops: seq<Op>, k: nat, i: nat)
    requires IsRun(verbosity, runs, ops) && k < |runs| && i < |runs[k]|
    ensures |runs[k]| == 1 + Forks(ops[..k])
    ensures runs[k][i].frozen == FrozenAlong(runs, ops, k, i)
    ensures runs[k][i].nestingLevel
         == if AttemptsAlong(runs, ops, k, i) < 4294967295 then AttemptsAlong(runs, ops, k, i) else 4294967295
    decreases k
  {
    if k > 0 {
      var op, before := ops[k - 1], runs[k - 1];
      assert runs[k - 1 + 1] == Step(before, op);
      assert ops[..k][..k - 1] == ops[..k - 1];
      LoggerCountsItsLineage(verbosity, runs, ops, k - 1, if i >= |before| then op.target else i);
    }
  }

  lemma MutatedHistory(log: Log, m: Mutation)
    requires Sound(log)
    ensures Added(Mutated(log, m).inner)
         == Added(log.inner) + if m.AddFields? && Accepts(log) then m.fields else []
    ensures VerbosityOf(Mutated(log, m).inner)
         == if m.SetVerbosity? && Accepts(log) then m.verbosity else VerbosityOf(log.inner)
  {
    assert Added(log.inner) + [] == Added(log.inner);
  }

  /**
   On any tree of forked loggers: a logger's fields are exactly those accepted
   along its lineage, in order, and its verbosity the last one accepted there;
   frozen, capped and other loggers' calls leave no trace.
   */
  lemma {:induction false} LoggerIsItsLineage(verbosity: nat, runs: seq<seq<Log>>, ops: seq<Op>, k: nat, i: nat)
    requires IsRun(verbosity, runs, ops) && k < |runs| && i < |runs[k]|
    ensures Added(runs[k][i].inner) == FieldsAlong(runs, ops, k, i)
    ensures VerbosityOf(runs[k][i].inner) == VerbosityAlong(verbosity, runs, ops, k, i)
    decreases k
  {
    hide Sound, Mutated;
    if k > 0 {
      var op, before := ops[k - 1], runs[k - 1];
      assert runs[k - 1 + 1] == Step(before, op);
      var source := if i >= |before| then op.target else i;
      LoggerIsItsLineage(verbosity, runs, ops, k - 1, source);
      if op.Mutate? && op.target == i {
        RunIsSound(verbosity, runs, ops, k - 1, i);
        MutatedHistory(before[i], op.m);
      }
    }
  }
}
