/**
 `WithExemplar<Counter>` and `WithExemplar<Histogram>`: labelled updates, clears
 and collections hold the exemplar lock for several steps, while unlabelled
 updates go straight to the metric at any moment.
 */
module Exemplars {
  import opened Base

  type Tid = nat

  /** A stored exemplar: which label set, and the sampled value. */
  datatype Stored<V> = Stored(labelSet: nat, value: V)

  datatype Storage<V> = Empty | Single(exemplar: Option<Stored<V>>) | PerBucket(exemplars: map<nat, Stored<V>>) {
    function Cleared(): Storage<V> {
      match this
      case Empty => Empty
      case Single(_) => Single(None)
      case PerBucket(_) => PerBucket(map[])
    }
  }
}

/** The counter with one exemplar. */
module ExemplarCounter {
  import opened Base
  import opened Exemplars

  datatype Pc =
    | Idle
    | Labelled(labelSet: nat, n: int)                  // holds the lock, inc_by next
    | Counted(labelSet: nat, n: int)                   // holds the lock, store next
    | Clearing                                         // holds the lock
    | Collecting                                       // holds the lock, exemplar next
    | Copied(exemplar: Option<Stored<int>>)            // holds the lock, value next
    | Collected(exemplar: Option<Stored<int>>, value: nat)
    | Unlocking                                        // holds the lock, nothing left to do
    | Unreachable                                      // the arm for per-bucket storage

  /**
   `labelled` lists the labelled increments so far in the order they were
   counted, `kept` the position after which no clear has happened, and
   `unlabelled` the sum of the others.
   */
  datatype State = State(
    value: nat, storage: Storage<int>, lock: Option<Tid>, pcs: map<Tid, Pc>,
    labelled: seq<Stored<int>>, kept: nat, unlabelled: int)
  {
    function Pc(t: Tid): Pc { if t in pcs then pcs[t] else Idle }
  }

  const INIT: State := State(0, Empty, None, map[], [], 0, 0)

  datatype Action =
    | IncUnlabelled(n: int) | StartLabelled(labelSet: nat, n: int) | StartClear | StartCollect | Resume

  predicate HoldsLock(pc: Pc) { !pc.Idle? }

  predicate Enabled(s: State, t: Tid, a: Action) {
    match a
    case IncUnlabelled(_) => s.Pc(t).Idle?
    case Resume => !s.Pc(t).Idle? && !s.Pc(t).Unreachable?
    case _ => s.Pc(t).Idle? && s.lock.None?
  }

  function Step(s: State, t: Tid, a: Action): State
    requires Enabled(s, t, a)
  {
    match a
    case IncUnlabelled(n) => s.(value := Wrap(s.value + n), unlabelled := s.unlabelled + n)
    case StartLabelled(labelSet, n) => s.(lock := Some(t), pcs := s.pcs[t := Labelled(labelSet, n)])
    case StartClear => s.(lock := Some(t), pcs := s.pcs[t := Clearing])
    case StartCollect => s.(lock := Some(t), pcs := s.pcs[t := Collecting])
    case Resume =>
      match s.Pc(t)
      case Labelled(labelSet, n) =>
        s.(value := Wrap(s.value + n), labelled := s.labelled + [Stored(labelSet, n)],
           pcs := s.pcs[t := Counted(labelSet, n)])
      case Counted(labelSet, n) =>
        if s.storage.PerBucket? then s.(pcs := s.pcs[t := Unreachable])
        else s.(storage := Single(Some(Stored(labelSet, n))), pcs := s.pcs[t := Unlocking])
      case Clearing => s.(storage := s.storage.Cleared(), kept := |s.labelled|, pcs := s.pcs[t := Unlocking])
      case Collecting =>
        (match s.storage
         case Empty => s.(pcs := s.pcs[t := Copied(None)])
         case Single(exemplar) => s.(pcs := s.pcs[t := Copied(exemplar)])
         case PerBucket(_) => s.(pcs := s.pcs[t := Unreachable]))
      case Copied(exemplar) => s.(pcs := s.pcs[t := Collected(exemplar, s.value)])
      case Collected(_, _) => s.(lock := None, pcs := s.pcs[t := Idle])
      case Unlocking => s.(lock := None, pcs := s.pcs[t := Idle])
  }

  /** The latest labelled increment since the last clear. */
  function Latest(labelled: seq<Stored<int>>, kept: nat): Option<Stored<int>> {
    if kept < |labelled| then Some(labelled[|labelled| - 1]) else None
  }

  function LabelledSum(labelled: seq<Stored<int>>): int {
    if labelled == [] then 0 else LabelledSum(labelled[..|labelled| - 1]) + labelled[|labelled| - 1].value
  }

  function StoredExemplar(storage: Storage<int>): Option<Stored<int>> {
    if storage.Single? then storage.exemplar else None
  }

  /** Outside the two steps of a labelled increment, the slot holds the latest one. */
  ghost predicate PcOk(s: State, t: Tid, pc: Pc) {
    && (HoldsLock(pc) <==> s.lock == Some(t))
    && match pc
       case Counted(labelSet, n) => Latest(s.labelled, s.kept) == Some(Stored(labelSet, n))
       case Copied(exemplar) => exemplar == Latest(s.labelled, s.kept)
       case Collected(exemplar, _) => exemplar == Latest(s.labelled, s.kept)
       case Unreachable => false
       case _ => true
  }

  ghost predicate Inv(s: State) {
    && !s.storage.PerBucket?
    && s.kept <= |s.labelled|
    && s.value == Wrap(LabelledSum(s.labelled) + s.unlabelled)
    && (StoredExemplar(s.storage) == Latest(s.labelled, s.kept) || (s.lock.Some? && s.Pc(s.lock.value).Counted?))
    && forall t: Tid :: PcOk(s, t, s.Pc(t))
  }

  lemma CountedKeepsSum(s: State, t: Tid, a: Action)
    requires Enabled(s, t, a) && s.value == Wrap(LabelledSum(s.labelled) + s.unlabelled)
    ensures var s' := Step(s, t, a); s'.value == Wrap(LabelledSum(s'.labelled) + s'.unlabelled)
  {
    hide Wrap;
    if a.Resume? && s.Pc(t).Labelled? {
      var grown := s.labelled + [Stored(s.Pc(t).labelSet, s.Pc(t).n)];
      assert grown[..|s.labelled|] == s.labelled;
      WrapAdd(LabelledSum(s.labelled) + s.unlabelled, s.Pc(t).n);
    } else if a.IncUnlabelled? {
      WrapAdd(LabelledSum(s.labelled) + s.unlabelled, a.n);
    }
  }

  lemma StepKeepsInv(s: State, t: Tid, a: Action)
    requires Inv(s) && Enabled(s, t, a)
    ensures Inv(Step(s, t, a))
  {
    hide Wrap, LabelledSum;
    CountedKeepsSum(s, t, a);
    var s' := Step(s, t, a);
    assert PcOk(s, t, s.Pc(t));
    forall u: Tid ensures PcOk(s', u, s'.Pc(u)) {
      assert PcOk(s, u, s.Pc(u));
      assert u != t ==> s'.Pc(u) == s.Pc(u);
    }
  }

  datatype Event = Event(t: Tid, a: Action)

  ghost predicate IsRun(ss: seq<State>, es: seq<Event>) {
    && |ss| == |es| + 1
    && ss[0] == INIT
    && forall k :: 0 <= k < |es| ==> Enabled(ss[k], es[k].t, es[k].a) && ss[k + 1] == Step(ss[k], es[k].t, es[k].a)
  }

  lemma {:induction false} RunKeepsInv(ss: seq<State>, es: seq<Event>, k: nat)
    requires IsRun(ss, es) && k < |ss|
    ensures Inv(ss[k])
  {
    if k > 0 {
      RunKeepsInv(ss, es, k - 1);
      StepKeepsInv(ss[k - 1], es[k - 1].t, es[k - 1].a);
    }
  }

  /**
   Whenever a collection has taken its value, the exemplar with it is the latest
   labelled increment since the last clear, and the value it took (at event `k`)
   includes every labelled increment up to that one and none later.
   */
  lemma CollectionIsAtomic(ss: seq<State>, es: seq<Event>, k: nat)
    requires IsRun(ss, es) && k < |es| && es[k].a.Resume? && ss[k].Pc(es[k].t).Copied?
    ensures var done := ss[k + 1].Pc(es[k].t);
            && done.Collected?
            && done.exemplar == Latest(ss[k + 1].labelled, ss[k + 1].kept)
            && done.value == Wrap(LabelledSum(ss[k + 1].labelled) + ss[k + 1].unlabelled)
  {
    RunKeepsInv(ss, es, k + 1);
    RunKeepsInv(ss, es, k);
    assert PcOk(ss[k + 1], es[k].t, ss[k + 1].Pc(es[k].t));
    assert ss[k + 1] == Step(ss[k], es[k].t, es[k].a);
  }

  // ---- the same from the events alone ------------------------------------------------------

  /** Event `e` does the increment of a labelled call. */
  predicate CountsLabelled(s: State, e: Event) { e.a.Resume? && s.Pc(e.t).Labelled? }

  predicate Clears(s: State, e: Event) { e.a.Resume? && s.Pc(e.t).Clearing? }

  /** Everything the first `k` events added. */
  ghost function Increments(ss: seq<State>, es: seq<Event>, k: nat): int
    requires k <= |es| < |ss|
  {
    if k == 0 then 0
    else
      var s, e := ss[k - 1], es[k - 1];
      Increments(ss, es, k - 1)
      + if e.a.IncUnlabelled? then e.a.n else if CountsLabelled(s, e) then s.Pc(e.t).n else 0
  }

  /** The last labelled increment among the first `k` events, if no clear came after it. */
  ghost function LastLabelled(ss: seq<State>, es: seq<Event>, k: nat): Option<Stored<int>>
    requires k <= |es| < |ss|
  {
    if k == 0 then None
    else
      var s, e := ss[k - 1], es[k - 1];
      if CountsLabelled(s, e) then Some(Stored(s.Pc(e.t).labelSet, s.Pc(e.t).n))
      else if Clears(s, e) then None
      else LastLabelled(ss, es, k - 1)
  }

  lemma StepCounts(s: State, e: Event)
    requires Enabled(s, e.t, e.a) && s.kept <= |s.labelled|
    ensures var s' := Step(s, e.t, e.a);
            && s'.value == (if e.a.IncUnlabelled? then Wrap(s.value + e.a.n)
                            else if CountsLabelled(s, e) then Wrap(s.value + s.Pc(e.t).n) else s.value)
            && Latest(s'.labelled, s'.kept)
               == (if CountsLabelled(s, e) then Some(Stored(s.Pc(e.t).labelSet, s.Pc(e.t).n))
                   else if Clears(s, e) then None else Latest(s.labelled, s.kept))
  {
    hide Wrap;
  }

  lemma {:induction false} CountsTheEvents(ss: seq<State>, es: seq<Event>, k: nat)
    requires IsRun(ss, es) && k < |ss|
    ensures ss[k].value == Wrap(Increments(ss, es, k))
    ensures Latest(ss[k].labelled, ss[k].kept) == LastLabelled(ss, es, k)
  {
    hide Step, Enabled, Latest, CountsLabelled, Clears, Wrap, Inv;
    if k == 0 {
      NothingCounted();
    } else {
      var s, e := ss[k - 1], es[k - 1];
      CountsTheEvents(ss, es, k - 1);
      RunKeepsInv(ss, es, k - 1);
      KeptFits(s);
      assert ss[k - 1 + 1] == Step(s, e.t, e.a);
      StepCounts(s, e);
      if e.a.IncUnlabelled? {
        WrapAdd(Increments(ss, es, k - 1), e.a.n);
      } else if CountsLabelled(s, e) {
        LabelledPc(s, e);
        WrapAdd(Increments(ss, es, k - 1), s.Pc(e.t).n);
      }
    }
  }

  lemma NothingCounted()
    ensures Wrap(0) == 0 && Latest(INIT.labelled, INIT.kept) == None
  {
  }

  lemma KeptFits(s: State)
    requires Inv(s)
    ensures s.kept <= |s.labelled|
  {
  }

  lemma LabelledPc(s: State, e: Event)
    requires CountsLabelled(s, e)
    ensures s.Pc(e.t).Labelled?
  {
  }

  /**
   What a collection takes, from the events of the run: the last labelled increment
   with no clear after it, and everything added up to that moment.
   */
  lemma CollectsTheEvents(ss: seq<State>, es: seq<Event>, k: nat)
    requires IsRun(ss, es) && k < |es| && es[k].a.Resume? && ss[k].Pc(es[k].t).Copied?
    ensures var done := ss[k + 1].Pc(es[k].t);
            && done.Collected?
            && done.exemplar == LastLabelled(ss, es, k)
            && done.value == Wrap(Increments(ss, es, k))
  {
    RunKeepsInv(ss, es, k);
    CountsTheEvents(ss, es, k);
    assert PcOk(ss[k], es[k].t, ss[k].Pc(es[k].t));
    assert ss[k + 1] == Step(ss[k], es[k].t, es[k].a);
  }

  /**
   Only labelled calls, clears and collections wait, and only for one of them that
   can go on; unlabelled ones never do.
   */
  lemma NoDeadlock(ss: seq<State>, es: seq<Event>, k: nat, t: Tid, labelSet: nat, n: int)
    requires IsRun(ss, es) && k < |ss|
    ensures if ss[k].Pc(t).Idle? then
              && Enabled(ss[k], t, IncUnlabelled(n))
              && ((Enabled(ss[k], t, StartLabelled(labelSet, n)) && Enabled(ss[k], t, StartClear)
                   && Enabled(ss[k], t, StartCollect))
                  || exists u: Tid :: !ss[k].Pc(u).Idle? && Enabled(ss[k], u, Resume))
            else Enabled(ss[k], t, Resume)
  {
    RunKeepsInv(ss, es, k);
    assert PcOk(ss[k], t, ss[k].Pc(t));
    if ss[k].lock.Some? {
      var u := ss[k].lock.value;
      assert PcOk(ss[k], u, ss[k].Pc(u));
      assert !ss[k].Pc(u).Idle? && Enabled(ss[k], u, Resume);
    }
  }

  /** A labelled increment is of the label set and amount its call was made with. */
  lemma {:induction false} CountsItsCall(ss: seq<State>, es: seq<Event>, k: nat, t: Tid) returns (i: nat)
    requires IsRun(ss, es) && k < |ss| && ss[k].Pc(t).Labelled?
    ensures i < k <= |es| && es[i] == Event(t, StartLabelled(ss[k].Pc(t).labelSet, ss[k].Pc(t).n))
    ensures forall m :: i < m < k ==> es[m].t != t
  {
    assert k > 0;
    var e := es[k - 1];
    assert Enabled(ss[k - 1], e.t, e.a) && ss[k - 1 + 1] == Step(ss[k - 1], e.t, e.a);
    if e.t == t {
      i := k - 1;
    } else {
      i := CountsItsCall(ss, es, k - 1, t);
    }
  }

  /** The arms for per-bucket storage are never taken. */
  lemma PerBucketUnreachable(ss: seq<State>, es: seq<Event>, k: nat, t: Tid)
    requires IsRun(ss, es) && k < |ss|
    ensures !ss[k].Pc(t).Unreachable? && !ss[k].storage.PerBucket?
  {
    RunKeepsInv(ss, es, k);
    assert PcOk(ss[k], t, ss[k].Pc(t));
  }
}

/** The classic histogram with an exemplar per bucket. */
module ExemplarHistogram {
  import opened Base
  import opened Proto
  import opened Buckets
  import opened Exemplars

  /** One observation; a label set if it came with one. */
  datatype Pc =
    | Idle
    | Labelled(labelSet: nat, v: Float)                       // holds the exemplar lock, observe next
    | Observed(labelSet: nat, v: Float, bucket: Option<nat>)  // holds the exemplar lock, store next
    | Clearing
    | Collecting                                              // holds the exemplar lock, exemplars next
    | Copied(exemplars: map<nat, Stored<Float>>)              // holds the exemplar lock, snapshot next
    | Collected(exemplars: map<nat, Stored<Float>>, counts: seq<nat>)
    | Unlocking
    | Unreachable

  datatype State = State(
    bounds: seq<Float>, observed: seq<Float>, storage: Storage<Float>, lock: Option<Tid>, pcs: map<Tid, Pc>,
    labelled: seq<Stored<Float>>)
  {
    function Pc(t: Tid): Pc { if t in pcs then pcs[t] else Idle }
  }

  datatype Action =
    | Observe(v: Float) | StartLabelled(labelSet: nat, v: Float) | StartClear | StartCollect | Resume

  predicate Enabled(s: State, t: Tid, a: Action) {
    match a
    case Observe(_) => s.Pc(t).Idle?
    case Resume => !s.Pc(t).Idle? && !s.Pc(t).Unreachable?
    case _ => s.Pc(t).Idle? && s.lock.None?
  }

  /** The bucket an observation goes to. */
  function BucketOf(bounds: seq<Float>, v: Float): Option<nat> {
    if v.NaN? || FirstAtLeast(bounds, v) == |bounds| then None else Some(FirstAtLeast(bounds, v))
  }

  /** The histogram's own counters after the observations so far. */
  function Counts(bounds: seq<Float>, observed: seq<Float>): seq<nat> {
    seq(|bounds|, i requires 0 <= i < |bounds| => Wrap(InBucket(bounds, i, observed)))
  }

  function StoredMap(storage: Storage<Float>): map<nat, Stored<Float>> {
    if storage.PerBucket? then storage.exemplars else map[]
  }

  /** `labelled` restarts at every clear. */
  function Step(s: State, t: Tid, a: Action): State
    requires Enabled(s, t, a)
  {
    match a
    case Observe(v) => s.(observed := s.observed + [v])
    case StartLabelled(labelSet, v) => s.(lock := Some(t), pcs := s.pcs[t := Labelled(labelSet, v)])
    case StartClear => s.(lock := Some(t), pcs := s.pcs[t := Clearing])
    case StartCollect => s.(lock := Some(t), pcs := s.pcs[t := Collecting])
    case Resume =>
      match s.Pc(t)
      case Labelled(labelSet, v) =>
        s.(observed := s.observed + [v], labelled := s.labelled + [Stored(labelSet, v)],
           pcs := s.pcs[t := Observed(labelSet, v, BucketOf(s.bounds, v))])
      case Observed(labelSet, v, bucket) =>
        if bucket.None? then s.(pcs := s.pcs[t := Unlocking])
        else
          (match s.storage
           case Empty =>
             s.(storage := PerBucket(map[bucket.value := Stored(labelSet, v)]), pcs := s.pcs[t := Unlocking])
           case PerBucket(m) =>
             s.(storage := PerBucket(m[bucket.value := Stored(labelSet, v)]), pcs := s.pcs[t := Unlocking])
           case Single(_) => s.(pcs := s.pcs[t := Unreachable]))
      case Clearing => s.(storage := s.storage.Cleared(), labelled := [], pcs := s.pcs[t := Unlocking])
      case Collecting =>
        if s.storage.Single? then s.(pcs := s.pcs[t := Unreachable])
        else s.(pcs := s.pcs[t := Copied(StoredMap(s.storage))])
      case Copied(exemplars) => s.(pcs := s.pcs[t := Collected(exemplars, Counts(s.bounds, s.observed))])
      case Collected(_, _) => s.(lock := None, pcs := s.pcs[t := Idle])
      case Unlocking => s.(lock := None, pcs := s.pcs[t := Idle])
  }

  /** Per bucket, the latest labelled observation that went there. */
  function LatestPerBucket(bounds: seq<Float>, labelled: seq<Stored<Float>>): map<nat, Stored<Float>> {
    if labelled == [] then map[]
    else
      var last := labelled[|labelled| - 1];
      var before := LatestPerBucket(bounds, labelled[..|labelled| - 1]);
      if BucketOf(bounds, last.value).None? then before else before[BucketOf(bounds, last.value).value := last]
  }

  /** Every labelled observation was observed. */
  ghost predicate AllObserved(observed: seq<Float>, labelled: seq<Stored<Float>>) {
    forall i :: 0 <= i < |labelled| ==> labelled[i].value in observed
  }

  ghost predicate PcOk(s: State, t: Tid, pc: Pc) {
    && (!pc.Idle? <==> s.lock == Some(t))
    && match pc
       case Observed(labelSet, v, bucket) =>
         && bucket == BucketOf(s.bounds, v)
         && s.labelled != [] && s.labelled[|s.labelled| - 1] == Stored(labelSet, v)
         && StoredMap(s.storage) == LatestPerBucket(s.bounds, s.labelled[..|s.labelled| - 1])
       case Copied(exemplars) => exemplars == LatestPerBucket(s.bounds, s.labelled)
       case Collected(exemplars, _) => exemplars == LatestPerBucket(s.bounds, s.labelled)
       case Unreachable => false
       case _ => true
  }

  ghost predicate Inv(s: State) {
    && !s.storage.Single?
    && AllObserved(s.observed, s.labelled)
    && (StoredMap(s.storage) == LatestPerBucket(s.bounds, s.labelled) || (s.lock.Some? && s.Pc(s.lock.value).Observed?))
    && forall t: Tid :: PcOk(s, t, s.Pc(t))
  }

  lemma StepKeepsObserved(s: State, t: Tid, a: Action)
    requires Enabled(s, t, a) && AllObserved(s.observed, s.labelled)
    ensures AllObserved(Step(s, t, a).observed, Step(s, t, a).labelled)
  {
  }

  lemma StepKeepsInv(s: State, t: Tid, a: Action)
    requires Inv(s) && Enabled(s, t, a)
    ensures Inv(Step(s, t, a))
  {
    hide AllObserved, BucketOf, Counts;
    StepKeepsObserved(s, t, a);
    var s' := Step(s, t, a);
    assert PcOk(s, t, s.Pc(t));
    if a.Resume? && s.Pc(t).Labelled? {
      assert s'.labelled[..|s'.labelled| - 1] == s.labelled;
    }
    forall u: Tid ensures PcOk(s', u, s'.Pc(u)) {
      assert PcOk(s, u, s.Pc(u));
      assert u != t ==> s'.Pc(u) == s.Pc(u);
    }
  }

  datatype Event = Event(t: Tid, a: Action)

  ghost predicate IsRun(bounds: seq<Float>, ss: seq<State>, es: seq<Event>) {
    && |ss| == |es| + 1
    && ss[0] == State(bounds, [], Empty, None, map[], [])
    && forall k :: 0 <= k < |es| ==> Enabled(ss[k], es[k].t, es[k].a) && ss[k + 1] == Step(ss[k], es[k].t, es[k].a)
  }

  lemma {:induction false} RunKeepsInv(bounds: seq<Float>, ss: seq<State>, es: seq<Event>, k: nat)
    requires IsRun(bounds, ss, es) && k < |ss|
    ensures Inv(ss[k]) && ss[k].bounds == bounds
  {
    if k > 0 {
      RunKeepsInv(bounds, ss, es, k - 1);
      StepKeepsInv(ss[k - 1], es[k - 1].t, es[k - 1].a);
      assert ss[k - 1 + 1] == Step(ss[k - 1], es[k - 1].t, es[k - 1].a);
    }
  }

  /** Position `i` holds bucket `b`'s stored exemplar, and nothing later went to that bucket. */
  ghost predicate IsLatestAt(bounds: seq<Float>, labelled: seq<Stored<Float>>, b: nat, i: nat)
    requires i < |labelled| && b in LatestPerBucket(bounds, labelled)
  {
    && labelled[i] == LatestPerBucket(bounds, labelled)[b]
    && forall k :: i < k < |labelled| ==> BucketOf(bounds, labelled[k].value) != Some(b)
  }

  lemma {:induction false} LatestIsInItsBucket(bounds: seq<Float>, labelled: seq<Stored<Float>>, b: nat)
    requires b in LatestPerBucket(bounds, labelled)
    ensures var e := LatestPerBucket(bounds, labelled)[b]; e in labelled && BucketOf(bounds, e.value) == Some(b)
    ensures exists i :: 0 <= i < |labelled| && IsLatestAt(bounds, labelled, b, i)
  {
    var n := |labelled| - 1;
    var last := labelled[n];
    if BucketOf(bounds, last.value) == Some(b) {
      assert IsLatestAt(bounds, labelled, b, n);
    } else {
      var init := labelled[..n];
      LatestIsInItsBucket(bounds, init, b);
      var i :| 0 <= i < |init| && IsLatestAt(bounds, init, b, i);
      assert forall k :: i <= k < |labelled| ==> k == n || labelled[k] == init[k];
      assert IsLatestAt(bounds, labelled, b, i);
    }
  }

  lemma {:induction false} ObservedIsCounted(bounds: seq<Float>, i: nat, observed: seq<Float>, v: Float)
    requires v in observed && BucketOf(bounds, v) == Some(i)
    ensures InBucket(bounds, i, observed) >= 1
  {
    var n := |observed| - 1;
    if observed[n] != v {
      assert v in observed[..n];
      ObservedIsCounted(bounds, i, observed[..n], v);
    }
  }

  /**
   In every collected snapshot the exemplar of bucket `b` is the latest labelled
   observation there since the last clear, its value lies above the previous
   bound and at most bound `b`, and the bucket itself counts at least one.
   */
  lemma CollectedExemplarsFit(bounds: seq<Float>, ss: seq<State>, es: seq<Event>, k: nat, b: nat)
    requires IsRun(bounds, ss, es) && k < |es| && es[k].a.Resume? && ss[k].Pc(es[k].t).Copied?
    requires |ss[k].observed| < U64_LIMIT
    requires b in ss[k].Pc(es[k].t).exemplars
    ensures var done := ss[k + 1].Pc(es[k].t);
            && done.Collected? && done.exemplars == LatestPerBucket(bounds, ss[k + 1].labelled)
            && b < |bounds| == |done.counts| && done.counts[b] >= 1
            && !done.exemplars[b].value.NaN?
            && (forall i :: 0 <= i < b ==> bounds[i].Less(done.exemplars[b].value))
            && !bounds[b].Less(done.exemplars[b].value)
  {
    var s := ss[k];
    RunKeepsInv(bounds, ss, es, k);
    assert PcOk(s, es[k].t, s.Pc(es[k].t));
    assert ss[k + 1] == Step(s, es[k].t, es[k].a);
    LatestIsInItsBucket(bounds, s.labelled, b);
    var e := LatestPerBucket(bounds, s.labelled)[b];
    ObservedIsCounted(bounds, b, s.observed, e.value);
    InBucketBounded(bounds, b, s.observed);
    WrapSmall(InBucket(bounds, b, s.observed));
  }

  // ---- the same from the events alone --------------------------------------------------------

  predicate ObservesLabelled(s: State, e: Event) { e.a.Resume? && s.Pc(e.t).Labelled? }

  predicate Clears(s: State, e: Event) { e.a.Resume? && s.Pc(e.t).Clearing? }

  /** The values observed by the first `k` events, with a label set or without. */
  ghost function Observations(ss: seq<State>, es: seq<Event>, k: nat): seq<Float>
    requires k <= |es| < |ss|
  {
    if k == 0 then []
    else
      var s, e := ss[k - 1], es[k - 1];
      Observations(ss, es, k - 1)
      + if e.a.Observe? then [e.a.v] else if ObservesLabelled(s, e) then [s.Pc(e.t).v] else []
  }

  /** The last labelled observation in bucket `b`, if no clear came after it. */
  ghost function LastIn(bounds: seq<Float>, ss: seq<State>, es: seq<Event>, k: nat, b: nat): Option<Stored<Float>>
    requires k <= |es| < |ss|
  {
    if k == 0 then None
    else
      var s, e := ss[k - 1], es[k - 1];
      if ObservesLabelled(s, e) && BucketOf(bounds, s.Pc(e.t).v) == Some(b)
      then Some(Stored(s.Pc(e.t).labelSet, s.Pc(e.t).v))
      else if Clears(s, e) then None
      else LastIn(bounds, ss, es, k - 1, b)
  }

  function At(m: map<nat, Stored<Float>>, b: nat): Option<Stored<Float>> { if b in m then Some(m[b]) else None }

  lemma StepObserves(s: State, e: Event, b: nat)
    requires Enabled(s, e.t, e.a)
    ensures var s' := Step(s, e.t, e.a);
            && s'.bounds == s.bounds
            && s'.observed == s.observed + (if e.a.Observe? then [e.a.v]
                                            else if ObservesLabelled(s, e) then [s.Pc(e.t).v] else [])
            && At(LatestPerBucket(s.bounds, s'.labelled), b)
               == (if ObservesLabelled(s, e) && BucketOf(s.bounds, s.Pc(e.t).v) == Some(b)
                   then Some(Stored(s.Pc(e.t).labelSet, s.Pc(e.t).v))
                   else if Clears(s, e) then None else At(LatestPerBucket(s.bounds, s.labelled), b))
  {
    hide BucketOf, Counts;
    var s' := Step(s, e.t, e.a);
    assert s.observed + [] == s.observed;
    if ObservesLabelled(s, e) {
      assert s'.labelled[..|s'.labelled| - 1] == s.labelled;
    }
  }

  lemma {:induction false} ObservesTheEvents(bounds: seq<Float>, ss: seq<State>, es: seq<Event>, k: nat, b: nat)
    requires IsRun(bounds, ss, es) && k < |ss|
    ensures ss[k].bounds == bounds && ss[k].observed == Observations(ss, es, k)
    ensures At(LatestPerBucket(bounds, ss[k].labelled), b) == LastIn(bounds, ss, es, k, b)
  {
    hide Step, Enabled, BucketOf, ObservesLabelled, Clears;
    if k > 0 {
      var s, e := ss[k - 1], es[k - 1];
      ObservesTheEvents(bounds, ss, es, k - 1, b);
      assert ss[k - 1 + 1] == Step(s, e.t, e.a);
      StepObserves(s, e, b);
    }
  }

  /**
   What a collection takes, from the events of the run: in each bucket the last
   labelled observation there with no clear after it, and how many observations
   there were in each bucket.
   */
  lemma CollectsTheEvents(bounds: seq<Float>, ss: seq<State>, es: seq<Event>, k: nat, b: nat)
    requires IsRun(bounds, ss, es) && k < |es| && es[k].a.Resume? && ss[k].Pc(es[k].t).Copied?
    ensures var done := ss[k + 1].Pc(es[k].t);
            && done.Collected?
            && At(done.exemplars, b) == LastIn(bounds, ss, es, k, b)
            && |done.counts| == |bounds|
            && (b < |bounds| ==> done.counts[b] == Wrap(InBucket(bounds, b, Observations(ss, es, k))))
  {
    hide BucketOf, Wrap, LatestPerBucket;
    RunKeepsInv(bounds, ss, es, k);
    ObservesTheEvents(bounds, ss, es, k, b);
    assert PcOk(ss[k], es[k].t, ss[k].Pc(es[k].t));
    assert ss[k + 1] == Step(ss[k], es[k].t, es[k].a);
  }

  /**
   Only labelled calls, clears and collections wait, and only for one of them that
   can go on; unlabelled ones never do.
   */
  lemma NoDeadlock(bounds: seq<Float>, ss: seq<State>, es: seq<Event>, k: nat, t: Tid, labelSet: nat, v: Float)
    requires IsRun(bounds, ss, es) && k < |ss|
    ensures if ss[k].Pc(t).Idle? then
              && Enabled(ss[k], t, Observe(v))
              && ((Enabled(ss[k], t, StartLabelled(labelSet, v)) && Enabled(ss[k], t, StartClear)
                   && Enabled(ss[k], t, StartCollect))
                  || exists u: Tid :: !ss[k].Pc(u).Idle? && Enabled(ss[k], u, Resume))
            else Enabled(ss[k], t, Resume)
  {
    RunKeepsInv(bounds, ss, es, k);
    assert PcOk(ss[k], t, ss[k].Pc(t));
    if ss[k].lock.Some? {
      var u := ss[k].lock.value;
      assert PcOk(ss[k], u, ss[k].Pc(u));
      assert !ss[k].Pc(u).Idle? && Enabled(ss[k], u, Resume);
    }
  }

  /** A labelled observation is of the label set and value its call was made with. */
  lemma {:induction false} ObservesItsCall(
    bounds: seq<Float>, ss: seq<State>, es: seq<Event>, k: nat, t: Tid) returns (i: nat)
    requires IsRun(bounds, ss, es) && k < |ss| && ss[k].Pc(t).Labelled?
    ensures i < k <= |es| && es[i] == Event(t, StartLabelled(ss[k].Pc(t).labelSet, ss[k].Pc(t).v))
    ensures forall m :: i < m < k ==> es[m].t != t
  {
    assert k > 0;
    var e := es[k - 1];
    assert Enabled(ss[k - 1], e.t, e.a) && ss[k - 1 + 1] == Step(ss[k - 1], e.t, e.a);
    if e.t == t {
      i := k - 1;
    } else {
      i := ObservesItsCall(bounds, ss, es, k - 1, t);
    }
  }

  lemma SingleUnreachable(bounds: seq<Float>, ss: seq<State>, es: seq<Event>, k: nat, t: Tid)
    requires IsRun(bounds, ss, es) && k < |ss|
    ensures !ss[k].Pc(t).Unreachable? && !ss[k].storage.Single?
  {
    RunKeepsInv(bounds, ss, es, k);
    assert PcOk(ss[k], t, ss[k].Pc(t));
  }

  /** After the snapshot is encoded each stored exemplar goes to its own bucket, in any order. */
  method AttachExemplars(h: Histogram, exemplars: seq<(nat, Option<Proto.Exemplar>)>) returns (r: Histogram)
    requires forall j, k :: 0 <= j < k < |exemplars| ==> exemplars[j].0 != exemplars[k].0
    ensures r == h.(buckets := r.buckets) && |r.buckets| == |h.buckets|
    ensures forall b :: 0 <= b < |h.buckets| && (forall k :: 0 <= k < |exemplars| ==> exemplars[k].0 != b) ==>
      r.buckets[b] == h.buckets[b]
    ensures forall k :: 0 <= k < |exemplars| && exemplars[k].0 < |h.buckets| ==>
      r.buckets[exemplars[k].0] == h.buckets[exemplars[k].0].(exemplar := exemplars[k].1)
  {
    var buckets := h.buckets;
    for n := 0 to |exemplars|
      invariant |buckets| == |h.buckets|
      invariant forall b :: 0 <= b < |h.buckets| && (forall k :: 0 <= k < n ==> exemplars[k].0 != b) ==>
        buckets[b] == h.buckets[b]
      invariant forall k :: 0 <= k < n && exemplars[k].0 < |h.buckets| ==>
        buckets[exemplars[k].0] == h.buckets[exemplars[k].0].(exemplar := exemplars[k].1)
    {
      var (index, exemplar) := exemplars[n];
      if index < |buckets| {
        buckets := buckets[index := buckets[index].(exemplar := exemplar)];
      }
    }
    r := h.(buckets := buckets);
  }
}
