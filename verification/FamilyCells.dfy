/**
 `Family::get_or_create`, `remove` and `clear` with any number of threads: a
 read-locked lookup, then on a miss a write-locked insert that is downgraded to
 a read guard. Lock operations and map accesses are single steps.
 */
module FamilyCells {
  import opened Base

  type Tid = nat
  type Key = string
  type Id = nat

  datatype Pc =
    | Idle
    | Reading(key: Key)              // holds the read lock, lookup next
    | WantWrite(key: Key)            // lookup missed, read lock given back
    | Writing(key: Key)              // holds the write lock, entry().or_insert_with next
    | Inserted(key: Key)             // holds the write lock, downgrade next
    | Downgraded(key: Key)           // holds the read lock, second lookup next
    | Using(key: Key, id: Id)        // holds a guard on the metric
    | Owned(id: Id)                  // holds a clone of the metric and no lock
    | Removing(key: Key)             // holds the write lock
    | Clearing                       // holds the write lock
    | Unlocking                      // holds the write lock, nothing left to do
    | Panicked                       // the second lookup found nothing

  datatype State = State(
    writer: Option<Tid>, readers: set<Tid>,
    cells: map<Key, Id>, totals: map<Id, int>, next: Id, pcs: map<Tid, Pc>)
  {
    function Pc(t: Tid): Pc { if t in pcs then pcs[t] else Idle }
  }

  const INIT: State := State(None, {}, map[], map[], 0, map[])

  datatype Action =
    | StartGet(key: Key)
    | StartRemove(key: Key)
    | StartClear
    | Construct(initial: int)        // `initial` is what the constructor would make the metric's value
    | Increment(n: int)              // through a guard or an owned handle
    | Detach                         // get_or_create_owned clones the metric and drops the guard
    | Release
    | Resume

  predicate HoldsRead(pc: Pc) { pc.Reading? || pc.Downgraded? || pc.Using? }

  predicate HoldsWrite(pc: Pc) { pc.Writing? || pc.Inserted? || pc.Removing? || pc.Clearing? || pc.Unlocking? }

  predicate WriteFree(s: State) { s.writer.None? && s.readers == {} }

  predicate Enabled(s: State, t: Tid, a: Action) {
    match a
    case StartGet(_) => s.Pc(t).Idle? && s.writer.None?
    case StartRemove(_) => s.Pc(t).Idle? && WriteFree(s)
    case StartClear => s.Pc(t).Idle? && WriteFree(s)
    case Construct(_) => s.Pc(t).Writing?
    case Increment(_) => (s.Pc(t).Using? || s.Pc(t).Owned?) && s.Pc(t).id in s.totals
    case Detach => s.Pc(t).Using?
    case Release => s.Pc(t).Using? || s.Pc(t).Owned?
    case Resume =>
      match s.Pc(t)
      case Reading(_) => true
      case WantWrite(_) => WriteFree(s)
      case Inserted(_) => true
      case Downgraded(_) => true
      case Removing(_) => true
      case Clearing => true
      case Unlocking => true
      case _ => false
  }

  function Step(s: State, t: Tid, a: Action): State
    requires Enabled(s, t, a)
  {
    match a
    case StartGet(key) => s.(readers := s.readers + {t}, pcs := s.pcs[t := Reading(key)])
    case StartRemove(key) => s.(writer := Some(t), pcs := s.pcs[t := Removing(key)])
    case StartClear => s.(writer := Some(t), pcs := s.pcs[t := Clearing])
    case Construct(initial) =>
      var key := s.Pc(t).key;
      if key in s.cells then s.(pcs := s.pcs[t := Inserted(key)])
      else s.(cells := s.cells[key := s.next], totals := s.totals[s.next := initial], next := s.next + 1,
              pcs := s.pcs[t := Inserted(key)])
    case Increment(n) => s.(totals := s.totals[s.Pc(t).id := s.totals[s.Pc(t).id] + n])
    case Detach => s.(readers := s.readers - {t}, pcs := s.pcs[t := Owned(s.Pc(t).id)])
    case Release => s.(readers := s.readers - {t}, pcs := s.pcs[t := Idle])
    case Resume =>
      match s.Pc(t)
      case Reading(key) =>
        if key in s.cells then s.(pcs := s.pcs[t := Using(key, s.cells[key])])
        else s.(readers := s.readers - {t}, pcs := s.pcs[t := WantWrite(key)])
      case WantWrite(key) => s.(writer := Some(t), pcs := s.pcs[t := Writing(key)])
      case Inserted(key) => s.(writer := None, readers := s.readers + {t}, pcs := s.pcs[t := Downgraded(key)])
      case Downgraded(key) =>
        s.(pcs := s.pcs[t := if key in s.cells then Using(key, s.cells[key]) else Panicked])
      case Removing(key) => s.(cells := s.cells - {key}, pcs := s.pcs[t := Unlocking])
      case Clearing => s.(cells := map[], pcs := s.pcs[t := Unlocking])
      case Unlocking => s.(writer := None, pcs := s.pcs[t := Idle])
  }

  // ---- the inductive invariant ---------------------------------------------------------

  /** What a thread at `pc` may rely on. */
  predicate PcOk(s: State, t: Tid, pc: Pc) {
    && (HoldsWrite(pc) <==> s.writer == Some(t))
    && (HoldsRead(pc) <==> t in s.readers)
    && match pc
       case Inserted(key) => key in s.cells
       case Downgraded(key) => key in s.cells
       case Using(key, id) => key in s.cells && s.cells[key] == id
       case Owned(id) => id < s.next
       case Panicked => false
       case _ => true
  }

  ghost predicate CellsOk(s: State) {
    && (forall key :: key in s.cells ==> s.cells[key] < s.next)
    && (forall k1, k2 :: k1 in s.cells && k2 in s.cells && s.cells[k1] == s.cells[k2] ==> k1 == k2)
    && (forall id: Id :: id in s.totals <==> id < s.next)
  }

  ghost predicate Inv(s: State) {
    && (s.writer.Some? ==> s.readers == {})
    && CellsOk(s)
    && forall t: Tid :: PcOk(s, t, s.Pc(t))
  }

  lemma StepKeepsCells(s: State, t: Tid, a: Action)
    requires Inv(s) && Enabled(s, t, a)
    ensures CellsOk(Step(s, t, a))
  {
    assert PcOk(s, t, s.Pc(t));
  }

  lemma StepKeepsLock(s: State, t: Tid, a: Action)
    requires Inv(s) && Enabled(s, t, a)
    ensures var s' := Step(s, t, a); s'.writer.Some? ==> s'.readers == {}
  {
    assert PcOk(s, t, s.Pc(t));
  }

  /** Another thread that holds a lock keeps the map still; one that holds none relies on nothing in it. */
  lemma StepKeepsOther(s: State, t: Tid, a: Action, u: Tid)
    requires Inv(s) && Enabled(s, t, a) && u != t
    ensures PcOk(Step(s, t, a), u, s.Pc(u))
  {
    assert PcOk(s, t, s.Pc(t)) && PcOk(s, u, s.Pc(u));
  }

  lemma StepKeepsOwn(s: State, t: Tid, a: Action)
    requires Inv(s) && Enabled(s, t, a)
    ensures PcOk(Step(s, t, a), t, Step(s, t, a).Pc(t))
  {
    assert PcOk(s, t, s.Pc(t));
  }

  lemma StepKeepsInv(s: State, t: Tid, a: Action)
    requires Inv(s) && Enabled(s, t, a)
    ensures Inv(Step(s, t, a))
  {
    hide PcOk, CellsOk;
    StepKeepsCells(s, t, a);
    StepKeepsLock(s, t, a);
    var s' := Step(s, t, a);
    forall u: Tid ensures PcOk(s', u, s'.Pc(u)) {
      if u == t { StepKeepsOwn(s, t, a); } else { StepKeepsOther(s, t, a, u); assert s'.Pc(u) == s.Pc(u); }
    }
  }

  // ---- runs --------------------------------------------------------------------------------

  datatype Event = Event(t: Tid, a: Action)

  ghost predicate IsRun(ss: seq<State>, es: seq<Event>) {
    && |ss| == |es| + 1
    && ss[0] == INIT
    && forall k :: 0 <= k < |es| ==> Enabled(ss[k], es[k].t, es[k].a) && ss[k + 1] == Step(ss[k], es[k].t, es[k].a)
  }

  lemma {:induction false} RunKeepsInv(ss: seq<State>, es: seq<Event>, k: nat)
    requires IsRun(ss, es) && k < |ss|
    ensures Inv(ss[k])
  {
    if k > 0 {
      RunKeepsInv(ss, es, k - 1);
      StepKeepsInv(ss[k - 1], es[k - 1].t, es[k - 1].a);
    }
  }

  /** The lookup after the insert always finds the metric, and locks exclude each other. */
  lemma NeverPanics(ss: seq<State>, es: seq<Event>, k: nat, t: Tid)
    requires IsRun(ss, es) && k < |ss|
    ensures !ss[k].Pc(t).Panicked?
    ensures HoldsWrite(ss[k].Pc(t)) ==> forall u: Tid :: u != t ==> !HoldsWrite(ss[k].Pc(u)) && !HoldsRead(ss[k].Pc(u))
  {
    RunKeepsInv(ss, es, k);
    assert PcOk(ss[k], t, ss[k].Pc(t));
    forall u: Tid | HoldsWrite(ss[k].Pc(t)) && u != t
      ensures !HoldsWrite(ss[k].Pc(u)) && !HoldsRead(ss[k].Pc(u))
    {
      assert PcOk(ss[k], u, ss[k].Pc(u));
    }
  }

  predicate Removes(s: State, e: Event, key: Key) {
    e.a.Resume? && (s.Pc(e.t) == Removing(key) || s.Pc(e.t).Clearing?)
  }

  lemma {:induction false} CellStays(ss: seq<State>, es: seq<Event>, i: nat, j: nat, key: Key)
    requires IsRun(ss, es) && i <= j < |ss| && key in ss[i].cells
    requires forall k :: i <= k < j ==> !Removes(ss[k], es[k], key)
    ensures key in ss[j].cells && ss[j].cells[key] == ss[i].cells[key]
    decreases j - i
  {
    if i < j {
      CellStays(ss, es, i, j - 1, key);
      assert !Removes(ss[j - 1], es[j - 1], key);
      assert ss[j - 1 + 1] == Step(ss[j - 1], es[j - 1].t, es[j - 1].a);
    }
  }

  /** Two calls for a key with no removal between their lookups get the same cell. */
  lemma SameCell(ss: seq<State>, es: seq<Event>, i: nat, j: nat, t: Tid, u: Tid)
    requires IsRun(ss, es) && i <= j < |ss|
    requires ss[i].Pc(t).Using? && ss[j].Pc(u).Using? && ss[i].Pc(t).key == ss[j].Pc(u).key
    requires forall k :: i <= k < j ==> !Removes(ss[k], es[k], ss[i].Pc(t).key)
    ensures ss[i].Pc(t).id == ss[j].Pc(u).id
  {
    RunKeepsInv(ss, es, i);
    RunKeepsInv(ss, es, j);
    assert PcOk(ss[i], t, ss[i].Pc(t)) && PcOk(ss[j], u, ss[j].Pc(u));
    CellStays(ss, es, i, j, ss[i].Pc(t).key);
  }

  /** Different keys never share a cell. */
  lemma DifferentKeysDifferentCells(ss: seq<State>, es: seq<Event>, k: nat, t: Tid, u: Tid)
    requires IsRun(ss, es) && k < |ss| && ss[k].Pc(t).Using? && ss[k].Pc(u).Using?
    ensures ss[k].Pc(t).id == ss[k].Pc(u).id <==> ss[k].Pc(t).key == ss[k].Pc(u).key
  {
    RunKeepsInv(ss, es, k);
    assert PcOk(ss[k], t, ss[k].Pc(t)) && PcOk(ss[k], u, ss[k].Pc(u));
  }

  lemma {:induction false} DetachedStays(ss: seq<State>, es: seq<Event>, i: nat, j: nat, id: Id)
    requires IsRun(ss, es) && i <= j < |ss|
    requires id < ss[i].next && forall key :: key in ss[i].cells ==> ss[i].cells[key] != id
    ensures id < ss[j].next && forall key :: key in ss[j].cells ==> ss[j].cells[key] != id
    decreases j - i
  {
    if i < j {
      DetachedStays(ss, es, i, j - 1, id);
      assert ss[j - 1 + 1] == Step(ss[j - 1], es[j - 1].t, es[j - 1].a);
    }
  }

  /** After a removal of its key a cell is never handed out again. */
  lemma RemovedCellIsGone(ss: seq<State>, es: seq<Event>, i: nat, j: nat, key: Key, u: Tid)
    requires IsRun(ss, es) && i < |es| && i < j < |ss|
    requires Removes(ss[i], es[i], key) && key in ss[i].cells
    ensures ss[j].Pc(u).Using? ==> ss[j].Pc(u).id != ss[i].cells[key]
  {
    RunKeepsInv(ss, es, i);
    RunKeepsInv(ss, es, j);
    assert ss[i + 1] == Step(ss[i], es[i].t, es[i].a);
    DetachedStays(ss, es, i + 1, j, ss[i].cells[key]);
    assert PcOk(ss[j], u, ss[j].Pc(u));
  }

  // ---- increments ------------------------------------------------------------------------------

  /** What event `e` adds to cell `id`. */
  function Contribution(s: State, e: Event, id: Id): int {
    if e.a.Increment? && (s.Pc(e.t).Using? || s.Pc(e.t).Owned?) && s.Pc(e.t).id == id then e.a.n else 0
  }

  function Added(ss: seq<State>, es: seq<Event>, id: Id, i: nat, j: nat): int
    requires i <= j <= |es| < |ss|
    decreases j - i
  {
    if i == j then 0 else Added(ss, es, id, i, j - 1) + Contribution(ss[j - 1], es[j - 1], id)
  }

  lemma StepContributes(s: State, e: Event, id: Id)
    requires Inv(s) && Enabled(s, e.t, e.a) && id in s.totals
    ensures id in Step(s, e.t, e.a).totals && Step(s, e.t, e.a).totals[id] == s.totals[id] + Contribution(s, e, id)
  {
    assert PcOk(s, e.t, s.Pc(e.t));
  }

  /**
   Nothing but increments through its handles changes a cell's value: no other
   call's constructor replaces it, and removal does not detach its handles.
   */
  lemma {:induction false} TotalIsSumOfIncrements(ss: seq<State>, es: seq<Event>, id: Id, i: nat, j: nat)
    requires IsRun(ss, es) && i <= j < |ss| && id in ss[i].totals
    ensures id in ss[j].totals && ss[j].totals[id] == ss[i].totals[id] + Added(ss, es, id, i, j)
    decreases j - i
  {
    hide Inv, Step, Enabled, Contribution;
    if i < j {
      TotalIsSumOfIncrements(ss, es, id, i, j - 1);
      RunKeepsInv(ss, es, j - 1);
      assert ss[j - 1 + 1] == Step(ss[j - 1], es[j - 1].t, es[j - 1].a);
      StepContributes(ss[j - 1], es[j - 1], id);
    }
  }

  /** Every handle in use is to a cell whose total is being kept. */
  lemma HandlesAreCounted(ss: seq<State>, es: seq<Event>, k: nat, t: Tid, n: int)
    requires IsRun(ss, es) && k < |ss| && (ss[k].Pc(t).Using? || ss[k].Pc(t).Owned?)
    ensures Enabled(ss[k], t, Increment(n))
    ensures Step(ss[k], t, Increment(n)).totals[ss[k].Pc(t).id] == ss[k].totals[ss[k].Pc(t).id] + n
  {
    RunKeepsInv(ss, es, k);
    assert PcOk(ss[k], t, ss[k].Pc(t));
  }

  /** A cell made for a label set that had none is new, and starts at what its constructor gave. */
  lemma NewCellHoldsInitial(ss: seq<State>, es: seq<Event>, k: nat)
    requires IsRun(ss, es) && k < |es| && es[k].a.Construct? && ss[k].Pc(es[k].t).key !in ss[k].cells
    ensures var key := ss[k].Pc(es[k].t).key;
            && key in ss[k + 1].cells
            && ss[k + 1].cells[key] !in ss[k].totals
            && ss[k + 1].cells[key] in ss[k + 1].totals
            && ss[k + 1].totals[ss[k + 1].cells[key]] == es[k].a.initial
  {
    RunKeepsInv(ss, es, k);
    assert ss[k + 1] == Step(ss[k], es[k].t, es[k].a);
  }

  predicate ForKey(pc: Pc) {
    pc.Reading? || pc.WantWrite? || pc.Writing? || pc.Inserted? || pc.Downgraded? || pc.Using? || pc.Removing?
  }

  predicate Starts(a: Action) { a.StartGet? || a.StartRemove? || a.StartClear? }

  /** A thread works for the label set its last call asked for, and its guard is on that one's cell. */
  lemma {:induction false} WorksForItsKey(ss: seq<State>, es: seq<Event>, k: nat, t: Tid) returns (i: nat)
    requires IsRun(ss, es) && k < |ss| && ForKey(ss[k].Pc(t))
    ensures i < k <= |es| && es[i].t == t
    ensures es[i].a == if ss[k].Pc(t).Removing? then StartRemove(ss[k].Pc(t).key) else StartGet(ss[k].Pc(t).key)
    ensures forall m :: i < m < k && es[m].t == t ==> !Starts(es[m].a)
  {
    hide IsRun, Step, Enabled, ForKey, Starts;
    StepBefore(ss, es, k, t);
    var e := es[k - 1];
    StepKeepsKey(ss[k - 1], e, t);
    if e.t == t && Starts(e.a) {
      i := k - 1;
    } else {
      i := WorksForItsKey(ss, es, k - 1, t);
    }
  }

  lemma StepBefore(ss: seq<State>, es: seq<Event>, k: nat, t: Tid)
    requires IsRun(ss, es) && k < |ss| && ForKey(ss[k].Pc(t))
    ensures 0 < k <= |es| && |ss| == |es| + 1
    ensures Enabled(ss[k - 1], es[k - 1].t, es[k - 1].a) && ss[k] == Step(ss[k - 1], es[k - 1].t, es[k - 1].a)
  {
    hide Step, Enabled;
    assert k > 0;
    assert ss[k - 1 + 1] == Step(ss[k - 1], es[k - 1].t, es[k - 1].a);
  }

  lemma StepKeepsKey(s: State, e: Event, t: Tid)
    requires Enabled(s, e.t, e.a) && ForKey(Step(s, e.t, e.a).Pc(t))
    ensures var pc, before := Step(s, e.t, e.a).Pc(t), s.Pc(t);
            if e.t == t && Starts(e.a) then e.a == if pc.Removing? then StartRemove(pc.key) else StartGet(pc.key)
            else ForKey(before) && before.key == pc.key && (before.Removing? <==> pc.Removing?)
  {
  }

  /** An owned handle is on the cell of the guard it was cloned from. */
  lemma {:induction false} HandleIsOnItsGuards(ss: seq<State>, es: seq<Event>, k: nat, t: Tid) returns (i: nat)
    requires IsRun(ss, es) && k < |ss| && ss[k].Pc(t).Owned?
    ensures i < k <= |es| && es[i] == Event(t, Detach)
    ensures ss[i].Pc(t).Using? && ss[i].Pc(t).id == ss[k].Pc(t).id
    ensures forall m :: i < m < k && es[m].t == t ==> es[m].a.Increment?
  {
    assert k > 0;
    var e := es[k - 1];
    assert Enabled(ss[k - 1], e.t, e.a) && ss[k - 1 + 1] == Step(ss[k - 1], e.t, e.a);
    StepKeepsHandle(ss[k - 1], e, t);
    hide IsRun, Step, Enabled;
    if e == Event(t, Detach) {
      i := k - 1;
    } else {
      i := HandleIsOnItsGuards(ss, es, k - 1, t);
    }
  }

  lemma StepKeepsHandle(s: State, e: Event, t: Tid)
    requires Enabled(s, e.t, e.a) && Step(s, e.t, e.a).Pc(t).Owned?
    ensures if e == Event(t, Detach) then s.Pc(t).Using? && s.Pc(t).id == Step(s, e.t, e.a).Pc(t).id
            else s.Pc(t) == Step(s, e.t, e.a).Pc(t) && (e.t == t ==> e.a.Increment?)
  {
  }

  /** What a thread in the middle of a call, or with a guard or handle, can do without waiting for anyone. */
  ghost predicate CanGoOn(s: State, t: Tid) {
    match s.Pc(t)
    case Using(_, _) => Enabled(s, t, Release) && Enabled(s, t, Detach)
    case Owned(_) => Enabled(s, t, Release)
    case Writing(_) => forall initial :: Enabled(s, t, Construct(initial))
    case _ => Enabled(s, t, Resume)
  }

  /** Some other thread has the lock and can go on. */
  ghost predicate WaitsFor(s: State, t: Tid) {
    exists u: Tid :: u != t && (HoldsRead(s.Pc(u)) || HoldsWrite(s.Pc(u))) && CanGoOn(s, u)
  }

  /** No thread is stuck: it can go on, or it waits for a lock whose holder can. */
  lemma NoDeadlock(ss: seq<State>, es: seq<Event>, k: nat, t: Tid, key: Key)
    requires IsRun(ss, es) && k < |ss|
    ensures match ss[k].Pc(t)
            case Idle =>
              && (Enabled(ss[k], t, StartGet(key)) || WaitsFor(ss[k], t))
              && (Enabled(ss[k], t, StartRemove(key)) || WaitsFor(ss[k], t))
              && (Enabled(ss[k], t, StartClear) || WaitsFor(ss[k], t))
            case WantWrite(_) => Enabled(ss[k], t, Resume) || WaitsFor(ss[k], t)
            case _ => CanGoOn(ss[k], t)
  {
    var s := ss[k];
    RunKeepsInv(ss, es, k);
    hide IsRun, CellsOk;
    assert PcOk(s, t, s.Pc(t));
    if s.writer.Some? {
      LockHolder(s, s.writer.value);
    }
    if u :| u in s.readers {
      LockHolder(s, u);
    }
  }

  lemma LockHolder(s: State, u: Tid)
    requires Inv(s) && (s.writer == Some(u) || u in s.readers)
    ensures (HoldsRead(s.Pc(u)) || HoldsWrite(s.Pc(u))) && CanGoOn(s, u)
  {
    assert PcOk(s, u, s.Pc(u));
  }
}
