/**
 `update_f64`: the compare-exchange retry loop that floating-point counters and
 gauges share, run by any number of threads on one cell. Bit patterns are
 integers, and a caller's closure is any function on them.
 */
module AtomicUpdate {
  import opened Base

  type Tid = nat
  type Bits = int
  type Update = Bits -> Bits

  datatype Pc =
    | Idle
    | Called(f: Update)                          // the initial load is next
    | Loaded(f: Update, oldBits: Bits, ghost seen: nat)

  /** A completed operation: what it read, which it returns, and what it stored. */
  datatype Entry = Entry(t: Tid, f: Update, old_: Bits, stored: Bits)

  /** `log` records the completed operations in the order they took effect. */
  datatype State = State(cell: Bits, pcs: map<Tid, Pc>, log: seq<Entry>) {
    ghost function Pc(t: Tid): Pc { if t in pcs then pcs[t] else Idle }
  }

  datatype Action =
    | Call(f: Update)
    | Load
    | Exchange(spurious: bool)                   // compare_exchange_weak may fail for no reason
    | Swap(value: Bits)                          // `set`, one unconditional exchange

  ghost predicate Enabled(s: State, t: Tid, a: Action) {
    match a
    case Call(_) => s.Pc(t).Idle?
    case Load => s.Pc(t).Called?
    case Exchange(_) => s.Pc(t).Loaded?
    case Swap(_) => s.Pc(t).Idle?
  }

  ghost predicate Succeeds(s: State, t: Tid, a: Action)
    requires Enabled(s, t, a)
  {
    || a.Swap?
    || (a.Exchange? && !a.spurious && s.cell == s.Pc(t).oldBits)
  }

  ghost function Step(s: State, t: Tid, a: Action): State
    requires Enabled(s, t, a)
  {
    match a
    case Call(f) => s.(pcs := s.pcs[t := Called(f)])
    case Load => s.(pcs := s.pcs[t := Loaded(s.Pc(t).f, s.cell, |s.log|)])
    case Swap(value) =>
      s.(cell := value, log := s.log + [Entry(t, (old_: Bits) => value, s.cell, value)])
    case Exchange(_) =>
      var f, oldBits := s.Pc(t).f, s.Pc(t).oldBits;
      var newBits := f(oldBits);
      if Succeeds(s, t, a) then
        s.(cell := newBits, pcs := s.pcs[t := Idle], log := s.log + [Entry(t, f, oldBits, newBits)])
      else
        s.(pcs := s.pcs[t := Loaded(f, s.cell, |s.log|)])
  }

  /** The cell's content after the first `k` completed operations. */
  ghost function CellAfter(initial: Bits, log: seq<Entry>, k: nat): Bits
    requires k <= |log|
  {
    if k == 0 then initial else log[k - 1].stored
  }

  ghost predicate IsChain(initial: Bits, log: seq<Entry>) {
    forall k :: 0 <= k < |log| ==>
      log[k].old_ == CellAfter(initial, log, k) && log[k].stored == log[k].f(log[k].old_)
  }

  /** What a thread read is what the cell held after the operations completed by then. */
  ghost predicate ReadIsPast(initial: Bits, log: seq<Entry>, pc: Pc) {
    pc.Loaded? ==> pc.seen <= |log| && pc.oldBits == CellAfter(initial, log, pc.seen)
  }

  ghost predicate Inv(initial: Bits, s: State) {
    && s.cell == CellAfter(initial, s.log, |s.log|)
    && IsChain(initial, s.log)
    && forall t: Tid :: ReadIsPast(initial, s.log, s.Pc(t))
  }

  lemma PastStays(initial: Bits, log: seq<Entry>, e: Entry, k: nat)
    requires k <= |log|
    ensures CellAfter(initial, log + [e], k) == CellAfter(initial, log, k)
  {
  }

  lemma ChainGrows(initial: Bits, log: seq<Entry>, e: Entry)
    requires IsChain(initial, log)
    requires e.old_ == CellAfter(initial, log, |log|) && e.stored == e.f(e.old_)
    ensures IsChain(initial, log + [e])
  {
    var grown := log + [e];
    forall k | 0 <= k < |grown|
      ensures grown[k].old_ == CellAfter(initial, grown, k) && grown[k].stored == grown[k].f(grown[k].old_)
    {
      PastStays(initial, log, e, k);
      assert k < |log| ==> grown[k] == log[k];
    }
  }

  lemma StepKeepsInv(initial: Bits, s: State, t: Tid, a: Action)
    requires Inv(initial, s) && Enabled(s, t, a)
    ensures Inv(initial, Step(s, t, a))
  {
    hide IsChain;
    var s' := Step(s, t, a);
    assert ReadIsPast(initial, s.log, s.Pc(t));
    if Succeeds(s, t, a) {
      ChainGrows(initial, s.log, s'.log[|s.log|]);
    }
    forall u: Tid ensures ReadIsPast(initial, s'.log, s'.Pc(u)) {
      assert ReadIsPast(initial, s.log, s.Pc(u));
      if s'.log != s.log && s.Pc(u).Loaded? {
        PastStays(initial, s.log, s'.log[|s.log|], s.Pc(u).seen);
      }
      if u != t {
        assert s'.Pc(u) == s.Pc(u);
      }
    }
  }

  datatype Event = Event(t: Tid, a: Action)

  ghost predicate IsRun(initial: Bits, ss: seq<State>, es: seq<Event>) {
    && |ss| == |es| + 1
    && ss[0] == State(initial, map[], [])
    && forall k :: 0 <= k < |es| ==> Enabled(ss[k], es[k].t, es[k].a) && ss[k + 1] == Step(ss[k], es[k].t, es[k].a)
  }

  lemma {:induction false} RunKeepsInv(initial: Bits, ss: seq<State>, es: seq<Event>, k: nat)
    requires IsRun(initial, ss, es) && k < |ss|
    ensures Inv(initial, ss[k])
  {
    if k > 0 {
      RunKeepsInv(initial, ss, es, k - 1);
      StepKeepsInv(initial, ss[k - 1], es[k - 1].t, es[k - 1].a);
    }
  }

  ghost function Fold(initial: Bits, fs: seq<Update>): Bits {
    if fs == [] then initial else fs[|fs| - 1](Fold(initial, fs[..|fs| - 1]))
  }

  ghost function Updates(log: seq<Entry>): seq<Update> {
    seq(|log|, i requires 0 <= i < |log| => log[i].f)
  }

  lemma FoldStep(initial: Bits, fs: seq<Update>, k: nat)
    requires 0 < k <= |fs|
    ensures Fold(initial, fs[..k]) == fs[k - 1](Fold(initial, fs[..k - 1]))
  {
    var upTo := fs[..k];
    assert upTo[..k - 1] == fs[..k - 1] && upTo[k - 1] == fs[k - 1];
  }

  lemma UpdatesAre(log: seq<Entry>)
    ensures |Updates(log)| == |log| && forall i :: 0 <= i < |log| ==> Updates(log)[i] == log[i].f
  {
  }

  lemma {:induction false} ChainIsFold(initial: Bits, log: seq<Entry>, k: nat)
    requires k <= |log|
    requires IsChain(initial, log)
    ensures CellAfter(initial, log, k) == Fold(initial, Updates(log)[..k])
  {
    hide Updates;
    UpdatesAre(log);
    if k > 0 {
      ChainIsFold(initial, log, k - 1);
      var last := log[k - 1];
      assert last.old_ == CellAfter(initial, log, k - 1) && last.stored == last.f(last.old_);
      hide IsChain, Fold;
      FoldStep(initial, Updates(log), k);
    }
  }

  /**
   No update is lost: the completed operations form one chain, each returning
   what its predecessor stored, and the cell is the fold of all their functions.
   */
  lemma NoUpdateLost(initial: Bits, ss: seq<State>, es: seq<Event>, k: nat)
    requires IsRun(initial, ss, es) && k < |ss|
    ensures ss[k].cell == Fold(initial, Updates(ss[k].log))
    ensures forall i :: 0 <= i < |ss[k].log| ==> ss[k].log[i].old_ == Fold(initial, Updates(ss[k].log)[..i])
  {
    RunKeepsInv(initial, ss, es, k);
    var log := ss[k].log;
    ChainIsFold(initial, log, |log|);
    assert Updates(log)[..|log|] == Updates(log);
    forall i | 0 <= i < |log| ensures log[i].old_ == Fold(initial, Updates(log)[..i]) {
      ChainIsFold(initial, log, i);
    }
  }

  ghost function Completed(ss: seq<State>, es: seq<Event>, k: nat): nat
    requires |ss| == |es| + 1 && k <= |es|
    requires forall i :: 0 <= i < |es| ==> Enabled(ss[i], es[i].t, es[i].a)
  {
    if k == 0 then 0
    else Completed(ss, es, k - 1) + if Succeeds(ss[k - 1], es[k - 1].t, es[k - 1].a) then 1 else 0
  }

  /** The chain has exactly one entry per completed call, by the thread that made it. */
  lemma {:induction false} OneEntryPerCall(initial: Bits, ss: seq<State>, es: seq<Event>, k: nat)
    requires IsRun(initial, ss, es) && k < |ss|
    ensures |ss[k].log| == Completed(ss, es, k)
    ensures k > 0 && Succeeds(ss[k - 1], es[k - 1].t, es[k - 1].a) ==>
      var before, t, entry := ss[k - 1], es[k - 1].t, ss[k].log[|ss[k].log| - 1];
      && entry.t == t && ss[k].Pc(t).Idle?
      && entry.old_ == before.cell && entry.stored == ss[k].cell
      && if es[k - 1].a.Swap? then entry.stored == es[k - 1].a.value else entry.f == before.Pc(t).f
  {
    if k > 0 {
      OneEntryPerCall(initial, ss, es, k - 1);
      assert ss[k - 1 + 1] == Step(ss[k - 1], es[k - 1].t, es[k - 1].a);
    }
  }

  /** An exchange that fails for a reason failed because another operation completed meanwhile. */
  lemma FailureMeansProgress(initial: Bits, ss: seq<State>, es: seq<Event>, k: nat)
    requires IsRun(initial, ss, es) && k < |es|
    requires es[k].a == Exchange(false) && !Succeeds(ss[k], es[k].t, es[k].a)
    ensures ss[k].Pc(es[k].t).seen < |ss[k].log|
  {
    RunKeepsInv(initial, ss, es, k);
    assert ReadIsPast(initial, ss[k].log, ss[k].Pc(es[k].t));
  }

  /** When every update adds, the cell holds the initial value plus everything added. */
  lemma {:induction false} AddsAddUp(initial: Bits, fs: seq<Update>, deltas: seq<int>)
    requires |deltas| == |fs|
    requires forall i, x: Bits :: 0 <= i < |fs| ==> fs[i](x) == x + deltas[i]
    ensures Fold(initial, fs) == initial + Sum(deltas)
  {
    if fs != [] {
      AddsAddUp(initial, fs[..|fs| - 1], deltas[..|fs| - 1]);
    }
  }

  // ---- the loop itself --------------------------------------------------------------------

  /** What happens before an exchange attempt: another thread may store, and the attempt may fail for no reason. */
  datatype Disturbance = Disturbance(store: Option<Bits>, spurious: bool)

  class AtomicCell {
    var bits: Bits

    constructor (bits: Bits)
      ensures this.bits == bits
    {
      this.bits := bits;
    }

    method CompareExchangeWeak(current: Bits, new_: Bits, spurious: bool) returns (ok: bool, actual: Bits)
      modifies this
      ensures actual == old(bits) && ok == (!spurious && old(bits) == current)
      ensures bits == if ok then new_ else old(bits)
    {
      actual := bits;
      ok := !spurious && bits == current;
      if ok {
        bits := new_;
      }
    }
  }

  /** The cell's content once other threads have stored what they will before attempt `n`. */
  function Disturbed(initial: Bits, ds: seq<Disturbance>, n: nat): Bits {
    if n == 0 then initial
    else
      var before := Disturbed(initial, ds, n - 1);
      if n <= |ds| then ds[n - 1].store.GetOr(before) else before
  }

  /**
   The retry loop against any finite run of disturbances: it stores `f` of what
   the cell held at the moment of the successful exchange, returns that value,
   and needs at most one attempt more than there were disturbances.
   */
  method UpdateF64(cell: AtomicCell, f: Update, ds: seq<Disturbance>) returns (previous: Bits, attempts: nat)
    modifies cell
    ensures 1 <= attempts <= |ds| + 1
    ensures previous == Disturbed(old(cell.bits), ds, attempts)
    ensures cell.bits == f(previous)
  {
    var oldBits := cell.bits;
    attempts := 0;
    while true
      invariant attempts <= |ds|
      invariant oldBits == cell.bits == Disturbed(old(cell.bits), ds, attempts)
      decreases |ds| - attempts
    {
      var spurious := false;
      if attempts < |ds| {
        cell.bits := ds[attempts].store.GetOr(cell.bits);
        spurious := ds[attempts].spurious;
      }
      attempts := attempts + 1;
      var ok, actual := cell.CompareExchangeWeak(oldBits, f(oldBits), spurious);
      if ok {
        return oldBits, attempts;
      }
      oldBits := actual;
    }
  }

  /** No thread ever waits for another: each can take its next step in every state. */
  lemma NeverWaits(s: State, t: Tid, f: Update, value: Bits, spurious: bool)
    ensures match s.Pc(t)
            case Idle => Enabled(s, t, Call(f)) && Enabled(s, t, Swap(value))
            case Called(_) => Enabled(s, t, Load)
            case Loaded(_, _, _) => Enabled(s, t, Exchange(spurious))
  {
  }

  // ---- whose function it is -----------------------------------------------------------------

  /** The function a thread is about to apply is the one it was called with last. */
  lemma {:induction false} AppliesItsCall(initial: Bits, ss: seq<State>, es: seq<Event>, k: nat, t: Tid)
    returns (i: nat)
    requires IsRun(initial, ss, es) && k < |ss| && !ss[k].Pc(t).Idle?
    ensures i < k <= |es| && es[i] == Event(t, Call(ss[k].Pc(t).f))
    ensures forall m :: i < m < k && es[m].t == t ==> !es[m].a.Call? && !es[m].a.Swap?
  {
    assert k > 0;
    var e := es[k - 1];
    assert Enabled(ss[k - 1], e.t, e.a) && ss[k - 1 + 1] == Step(ss[k - 1], e.t, e.a);
    if e.t == t && e.a.Call? {
      i := k - 1;
    } else {
      i := AppliesItsCall(initial, ss, es, k - 1, t);
    }
  }
}
