/**
 `RangeGauge`: any number of threads update the gauge while scrapes, one at a
 time under `reset_cs`, read it and reset its bounds. Each atomic operation is
 one step; steps of different threads interleave freely.
 */
module RangeGauge {
  import opened Base

  type Tid = nat

  /** Where a thread stands inside an operation; the values are its locals. */
  datatype Pc =
    | Idle
    | RaiseMax(v: int)                                    // inc_by: fetch_max(v) is next
    | LowerMin(v: int)                                    // dec_by, or the end of set: fetch_min(v) is next
    | SetBounds(v: int)                                   // set: fetch_max(v), then fetch_min(v)
    | Locked                                              // get_values: holds reset_cs
    | ReadCurrent(cur: int)
    | SwappedMin(cur: int, mn: int)
    | SwappedMax(cur: int, mn: int, mx: int)
    | ReadFixup(cur: int, mn: int, mx: int, fix: int)
    | FixedMin(cur: int, mn: int, mx: int, fix: int)
    | FixedMax(cur: int, mn: int, mx: int)                // about to return (mn, cur, mx) and unlock

  datatype State = State(gauge: int, min: int, max: int, resetCs: Option<Tid>, pcs: map<Tid, Pc>) {
    function Pc(t: Tid): Pc { if t in pcs then pcs[t] else Idle }
  }

  datatype Action = IncBy(n: nat) | DecBy(n: nat) | Set(n: nat) | GetValues | Resume

  const INIT: State := State(0, 0, 0, None, map[])

  /** Callers keep the gauge within `u64`; everything else is always allowed. */
  predicate Enabled(s: State, t: Tid, a: Action) {
    match a
    case IncBy(n) => s.Pc(t).Idle? && s.gauge + n < U64_LIMIT
    case DecBy(n) => s.Pc(t).Idle? && n <= s.gauge
    case Set(n) => s.Pc(t).Idle? && n < U64_LIMIT
    case GetValues => s.Pc(t).Idle? && s.resetCs.None?
    case Resume => !s.Pc(t).Idle?
  }

  function Step(s: State, t: Tid, a: Action): State
    requires Enabled(s, t, a)
  {
    match a
    case IncBy(n) => s.(gauge := s.gauge + n, pcs := s.pcs[t := RaiseMax(s.gauge + n)])
    case DecBy(n) => s.(gauge := s.gauge - n, pcs := s.pcs[t := LowerMin(s.gauge - n)])
    case Set(n) => s.(gauge := n, pcs := s.pcs[t := SetBounds(n)])
    case GetValues => s.(resetCs := Some(t), pcs := s.pcs[t := Locked])
    case Resume =>
      match s.Pc(t)
      case RaiseMax(v) => s.(max := Max(s.max, v), pcs := s.pcs[t := Idle])
      case LowerMin(v) => s.(min := Min(s.min, v), pcs := s.pcs[t := Idle])
      case SetBounds(v) => s.(max := Max(s.max, v), pcs := s.pcs[t := LowerMin(v)])
      case Locked => s.(pcs := s.pcs[t := ReadCurrent(s.gauge)])
      case ReadCurrent(cur) => s.(min := cur, pcs := s.pcs[t := SwappedMin(cur, Min(cur, s.min))])
      case SwappedMin(cur, mn) => s.(max := cur, pcs := s.pcs[t := SwappedMax(cur, mn, Max(cur, s.max))])
      case SwappedMax(cur, mn, mx) => s.(pcs := s.pcs[t := ReadFixup(cur, mn, mx, s.gauge)])
      case ReadFixup(cur, mn, mx, fix) => s.(min := Min(s.min, fix), pcs := s.pcs[t := FixedMin(cur, mn, mx, fix)])
      case FixedMin(cur, mn, mx, fix) => s.(max := Max(s.max, fix), pcs := s.pcs[t := FixedMax(cur, mn, mx)])
      case FixedMax(cur, mn, mx) => s.(resetCs := None, pcs := s.pcs[t := Idle])
  }

  // ---- the inductive invariant ---------------------------------------------------

  predicate InScrape(pc: Pc) { !(pc.Idle? || pc.RaiseMax? || pc.LowerMin? || pc.SetBounds?) }

  /** The thread will still raise `max` to at least `g`, or owes the re-read that will. */
  predicate WillCoverMax(pc: Pc, g: int) {
    match pc
    case RaiseMax(v) => v >= g
    case SetBounds(v) => v >= g
    case SwappedMax(_, _, _) => true
    case ReadFixup(_, _, _, fix) => fix >= g
    case FixedMin(_, _, _, fix) => fix >= g
    case _ => false
  }

  predicate WillCoverMin(pc: Pc, g: int) {
    match pc
    case LowerMin(v) => v <= g
    case SetBounds(v) => v <= g
    case SwappedMin(_, _) => true
    case SwappedMax(_, _, _) => true
    case ReadFixup(_, _, _, fix) => fix <= g
    case _ => false
  }

  ghost predicate MaxCovered(s: State) {
    s.gauge <= s.max || exists t: Tid :: WillCoverMax(s.Pc(t), s.gauge)
  }

  ghost predicate MinCovered(s: State) {
    s.min <= s.gauge || exists t: Tid :: WillCoverMin(s.Pc(t), s.gauge)
  }

  predicate Ordered(pc: Pc) {
    match pc
    case SwappedMin(cur, mn) => mn <= cur
    case SwappedMax(cur, mn, mx) => mn <= cur <= mx
    case ReadFixup(cur, mn, mx, _) => mn <= cur <= mx
    case FixedMin(cur, mn, mx, _) => mn <= cur <= mx
    case FixedMax(cur, mn, mx) => mn <= cur <= mx
    case _ => true
  }

  ghost predicate Inv(s: State) {
    && (forall t: Tid :: InScrape(s.Pc(t)) <==> s.resetCs == Some(t))
    && (forall t: Tid :: Ordered(s.Pc(t)))
    && MaxCovered(s)
    && MinCovered(s)
    && 0 <= s.gauge < U64_LIMIT
  }

  lemma StepKeepsMaxCovered(s: State, t: Tid, a: Action)
    requires Enabled(s, t, a) && MaxCovered(s)
    ensures MaxCovered(Step(s, t, a))
  {
    var s' := Step(s, t, a);
    if s'.gauge > s'.max && !WillCoverMax(s'.Pc(t), s'.gauge) {
      // Whoever covered the gauge before this step is another thread, and still does.
      assert s'.gauge <= s.gauge;
      var u: Tid :| WillCoverMax(s.Pc(u), s.gauge);
      assert WillCoverMax(s'.Pc(u), s'.gauge);
    }
  }

  lemma StepKeepsMinCovered(s: State, t: Tid, a: Action)
    requires Enabled(s, t, a) && MinCovered(s)
    ensures MinCovered(Step(s, t, a))
  {
    var s' := Step(s, t, a);
    if s'.min > s'.gauge && !WillCoverMin(s'.Pc(t), s'.gauge) {
      assert s'.gauge >= s.gauge;
      var u: Tid :| WillCoverMin(s.Pc(u), s.gauge);
      assert WillCoverMin(s'.Pc(u), s'.gauge);
    }
  }

  lemma StepKeepsInv(s: State, t: Tid, a: Action)
    requires Enabled(s, t, a) && Inv(s)
    ensures Inv(Step(s, t, a))
  {
    StepKeepsMaxCovered(s, t, a);
    StepKeepsMinCovered(s, t, a);
    var s' := Step(s, t, a);
    forall u: Tid ensures Ordered(s'.Pc(u)) && (InScrape(s'.Pc(u)) <==> s'.resetCs == Some(u)) {
      assert u != t ==> s'.Pc(u) == s.Pc(u);
      assert Ordered(s.Pc(u)) && (InScrape(s.Pc(u)) <==> s.resetCs == Some(u));
      assert InScrape(s.Pc(t)) <==> s.resetCs == Some(t);
    }
  }

  // ---- runs -------------------------------------------------------------------------

  datatype Event = Event(t: Tid, a: Action)

  /** A run: `ss[k]` is the state before event `k`, the last state is where it stands now. */
  ghost predicate IsRun(ss: seq<State>, es: seq<Event>) {
    && |ss| == |es| + 1
    && ss[0] == INIT
    && forall k :: 0 <= k < |es| ==> Enabled(ss[k], es[k].t, es[k].a) && ss[k + 1] == Step(ss[k], es[k].t, es[k].a)
  }

  lemma {:induction false} RunKeepsInv(ss: seq<State>, es: seq<Event>, k: nat)
    requires IsRun(ss, es) && k < |ss|
    ensures Inv(ss[k])
  {
    if k > 0 {
      RunKeepsInv(ss, es, k - 1);
      StepKeepsInv(ss[k - 1], es[k - 1].t, es[k - 1].a);
    }
  }

  /** Whenever no operation is in flight, `min <= current <= max`. */
  lemma BoundsAtRest(ss: seq<State>, es: seq<Event>, k: nat)
    requires IsRun(ss, es) && k < |ss|
    requires forall t: Tid :: ss[k].Pc(t).Idle?
    ensures ss[k].min <= ss[k].gauge <= ss[k].max
  {
    RunKeepsInv(ss, es, k);
    forall t: Tid ensures !WillCoverMax(ss[k].Pc(t), ss[k].gauge) && !WillCoverMin(ss[k].Pc(t), ss[k].gauge) {
      assert ss[k].Pc(t).Idle?;
    }
  }

  /** Every triple a scrape returns is ordered, and scrapes never overlap. */
  lemma ReportsAreOrdered(ss: seq<State>, es: seq<Event>, k: nat, t: Tid)
    requires IsRun(ss, es) && k < |ss| && ss[k].Pc(t).FixedMax?
    ensures ss[k].Pc(t).mn <= ss[k].Pc(t).cur <= ss[k].Pc(t).mx
    ensures forall u: Tid :: InScrape(ss[k].Pc(u)) ==> u == t
  {
    RunKeepsInv(ss, es, k);
    assert Ordered(ss[k].Pc(t)) && InScrape(ss[k].Pc(t));
  }

  // ---- coverage -----------------------------------------------------------------------

  /** Event `k` is a scrape's swap of the max cell. */
  predicate SwapsMax(s: State, e: Event) { e.a.Resume? && s.Pc(e.t).SwappedMin? }

  predicate SwapsMin(s: State, e: Event) { e.a.Resume? && s.Pc(e.t).ReadCurrent? }

  /** Event `e` lands a `fetch_max(v)`. */
  predicate LandsMax(s: State, e: Event, v: int) {
    e.a.Resume? && match s.Pc(e.t)
      case RaiseMax(w) => v == w
      case SetBounds(w) => v == w
      case FixedMin(_, _, _, fix) => v == fix
      case _ => false
  }

  predicate LandsMin(s: State, e: Event, v: int) {
    e.a.Resume? && match s.Pc(e.t)
      case LowerMin(w) => v == w
      case ReadFixup(_, _, _, fix) => v == fix
      case _ => false
  }

  lemma {:induction false} MaxGrowsBetweenSwaps(ss: seq<State>, es: seq<Event>, i: nat, j: nat)
    requires IsRun(ss, es) && i <= j < |ss|
    requires forall k :: i <= k < j ==> !SwapsMax(ss[k], es[k])
    ensures ss[i].max <= ss[j].max
    decreases j - i
  {
    if i < j {
      MaxGrowsBetweenSwaps(ss, es, i, j - 1);
      assert !SwapsMax(ss[j - 1], es[j - 1]);
    }
  }

  lemma {:induction false} MinFallsBetweenSwaps(ss: seq<State>, es: seq<Event>, i: nat, j: nat)
    requires IsRun(ss, es) && i <= j < |ss|
    requires forall k :: i <= k < j ==> !SwapsMin(ss[k], es[k])
    ensures ss[j].min <= ss[i].min
    decreases j - i
  {
    if i < j {
      MinFallsBetweenSwaps(ss, es, i, j - 1);
      assert !SwapsMin(ss[j - 1], es[j - 1]);
    }
  }

  /**
   The max a scrape takes at event `j` covers everything that landed at some
   event `k` since the previous swap, and its own reading of the gauge.
   */
  lemma ReportedMaxCovers(ss: seq<State>, es: seq<Event>, k: nat, j: nat, v: int)
    requires IsRun(ss, es) && k < j < |es|
    requires SwapsMax(ss[j], es[j])
    requires forall m :: k < m < j ==> !SwapsMax(ss[m], es[m])
    requires LandsMax(ss[k], es[k], v) || (SwapsMax(ss[k], es[k]) && v == ss[k].Pc(es[k].t).cur)
    ensures ss[j + 1].Pc(es[j].t).SwappedMax?
    ensures v <= ss[j + 1].Pc(es[j].t).mx && ss[j + 1].Pc(es[j].t).cur <= ss[j + 1].Pc(es[j].t).mx
  {
    assert ss[k + 1] == Step(ss[k], es[k].t, es[k].a);
    MaxGrowsBetweenSwaps(ss, es, k + 1, j);
    assert ss[j + 1] == Step(ss[j], es[j].t, es[j].a);
  }

  lemma ReportedMinCovers(ss: seq<State>, es: seq<Event>, k: nat, j: nat, v: int)
    requires IsRun(ss, es) && k < j < |es|
    requires SwapsMin(ss[j], es[j])
    requires forall m :: k < m < j ==> !SwapsMin(ss[m], es[m])
    requires LandsMin(ss[k], es[k], v) || (SwapsMin(ss[k], es[k]) && v == ss[k].Pc(es[k].t).cur)
    ensures ss[j + 1].Pc(es[j].t).SwappedMin?
    ensures ss[j + 1].Pc(es[j].t).mn <= v && ss[j + 1].Pc(es[j].t).mn <= ss[j + 1].Pc(es[j].t).cur
  {
    assert ss[k + 1] == Step(ss[k], es[k].t, es[k].a);
    MinFallsBetweenSwaps(ss, es, k + 1, j);
    assert ss[j + 1] == Step(ss[j], es[j].t, es[j].a);
  }

  // ---- what a scrape returns ----------------------------------------------------------------

  /** Past both swaps, the values a scrape will return. */
  predicate HasSwapped(pc: Pc) { pc.SwappedMax? || pc.ReadFixup? || pc.FixedMin? || pc.FixedMax? }

  /** Event `i` is the scrape's swap of the min cell; no other scrape swaps it up to `k`. */
  ghost predicate IsMinSwap(ss: seq<State>, es: seq<Event>, i: nat, k: nat, t: Tid, cur: int, mn: int)
    requires |ss| == |es| + 1 && k <= |es|
  {
    && i < k && es[i].t == t && SwapsMin(ss[i], es[i]) && ss[i + 1].Pc(t) == SwappedMin(cur, mn)
    && forall m :: i < m < k ==> !SwapsMin(ss[m], es[m])
  }

  ghost predicate IsMaxSwap(ss: seq<State>, es: seq<Event>, j: nat, k: nat, t: Tid, cur: int, mn: int, mx: int)
    requires |ss| == |es| + 1 && k <= |es|
  {
    && j < k && es[j].t == t && SwapsMax(ss[j], es[j]) && ss[j + 1].Pc(t) == SwappedMax(cur, mn, mx)
    && forall m :: j < m < k ==> !SwapsMax(ss[m], es[m])
  }

  /** While one thread is in a scrape no other swaps a cell. */
  lemma OthersDoNotSwap(ss: seq<State>, es: seq<Event>, k: nat, t: Tid)
    requires IsRun(ss, es) && k < |es| && es[k].t != t && InScrape(ss[k].Pc(t))
    ensures !SwapsMin(ss[k], es[k]) && !SwapsMax(ss[k], es[k]) && ss[k + 1].Pc(t) == ss[k].Pc(t)
  {
    RunKeepsInv(ss, es, k);
    assert InScrape(ss[k].Pc(es[k].t)) <==> ss[k].resetCs == Some(es[k].t);
    assert ss[k + 1] == Step(ss[k], es[k].t, es[k].a);
  }

  lemma {:induction false} FindMinSwap(ss: seq<State>, es: seq<Event>, k: nat, t: Tid) returns (i: nat)
    requires IsRun(ss, es) && k < |ss| && (ss[k].Pc(t).SwappedMin? || HasSwapped(ss[k].Pc(t)))
    ensures IsMinSwap(ss, es, i, k, t, ss[k].Pc(t).cur, ss[k].Pc(t).mn)
  {
    hide IsRun;
    NotAtStart(ss, es, k, t);
    StepBefore(ss, es, k);
    var e := es[k - 1];
    if e.t == t && ss[k].Pc(t).SwappedMin? {
      i := k - 1;
    } else {
      if e.t != t {
        OthersStay(ss, es, k - 1, t);
        OthersDoNotSwap(ss, es, k - 1, t);
      }
      i := FindMinSwap(ss, es, k - 1, t);
    }
  }

  lemma {:induction false} FindSwaps(ss: seq<State>, es: seq<Event>, k: nat, t: Tid) returns (i: nat, j: nat)
    requires IsRun(ss, es) && k < |ss| && HasSwapped(ss[k].Pc(t))
    ensures j < k <= |es| == |ss| - 1
    ensures IsMinSwap(ss, es, i, j, t, ss[k].Pc(t).cur, ss[k].Pc(t).mn)
    ensures IsMaxSwap(ss, es, j, k, t, ss[k].Pc(t).cur, ss[k].Pc(t).mn, ss[k].Pc(t).mx)
  {
    hide IsRun;
    NotAtStart(ss, es, k, t);
    StepBefore(ss, es, k);
    var e := es[k - 1];
    if e.t == t && ss[k].Pc(t).SwappedMax? {
      j := k - 1;
      i := FindMinSwap(ss, es, j, t);
    } else {
      if e.t != t {
        OthersStay(ss, es, k - 1, t);
        OthersDoNotSwap(ss, es, k - 1, t);
      }
      i, j := FindSwaps(ss, es, k - 1, t);
    }
  }

  lemma NotAtStart(ss: seq<State>, es: seq<Event>, k: nat, t: Tid)
    requires IsRun(ss, es) && k < |ss| && !ss[k].Pc(t).Idle?
    ensures k > 0 && |ss| == |es| + 1
  {
  }

  lemma StepBefore(ss: seq<State>, es: seq<Event>, k: nat)
    requires IsRun(ss, es) && 0 < k < |ss|
    ensures Enabled(ss[k - 1], es[k - 1].t, es[k - 1].a) && ss[k] == Step(ss[k - 1], es[k - 1].t, es[k - 1].a)
  {
    assert ss[k - 1 + 1] == Step(ss[k - 1], es[k - 1].t, es[k - 1].a);
  }

  /** Event `n` stores `v` in the max cell, as an update or a scrape's reading, and no swap comes between it and `j`. */
  ghost predicate StoredMaxSince(ss: seq<State>, es: seq<Event>, n: nat, j: nat, v: int)
    requires |ss| == |es| + 1 && j <= |es|
  {
    && n < j
    && (LandsMax(ss[n], es[n], v) || (SwapsMax(ss[n], es[n]) && v == ss[n].Pc(es[n].t).cur))
    && forall m :: n < m < j ==> !SwapsMax(ss[m], es[m])
  }

  ghost predicate StoredMinSince(ss: seq<State>, es: seq<Event>, n: nat, i: nat, v: int)
    requires |ss| == |es| + 1 && i <= |es|
  {
    && n < i
    && (LandsMin(ss[n], es[n], v) || (SwapsMin(ss[n], es[n]) && v == ss[n].Pc(es[n].t).cur))
    && forall m :: n < m < i ==> !SwapsMin(ss[m], es[m])
  }

  /**
   The triple a scrape returns is what its own two swaps took: its max is at least
   everything stored in the max cell since the previous swap of it, its min at most
   everything stored in the min cell since the previous swap of that, and its current
   value lies between them.
   */
  lemma ReturnedTripleCovers(ss: seq<State>, es: seq<Event>, k: nat, t: Tid) returns (i: nat, j: nat)
    requires IsRun(ss, es) && k < |ss| && ss[k].Pc(t).FixedMax?
    ensures i < j < k && es[i].t == es[j].t == t && SwapsMin(ss[i], es[i]) && SwapsMax(ss[j], es[j])
    ensures ss[k].Pc(t).mn <= ss[k].Pc(t).cur <= ss[k].Pc(t).mx
    ensures forall n, v :: StoredMaxSince(ss, es, n, j, v) ==> v <= ss[k].Pc(t).mx
    ensures forall n, v :: StoredMinSince(ss, es, n, i, v) ==> ss[k].Pc(t).mn <= v
  {
    hide LandsMax, LandsMin, SwapsMax, SwapsMin, Step, Enabled;
    i, j := FindSwaps(ss, es, k, t);
    ReportsAreOrdered(ss, es, k, t);
    forall n, v | StoredMaxSince(ss, es, n, j, v)
      ensures v <= ss[k].Pc(t).mx
    {
      ReportedMaxCovers(ss, es, n, j, v);
    }
    forall n, v | StoredMinSince(ss, es, n, i, v)
      ensures ss[k].Pc(t).mn <= v
    {
      ReportedMinCovers(ss, es, n, i, v);
    }
  }

  // ---- provenance ------------------------------------------------------------------------

  ghost predicate Held(ss: seq<State>, k: nat, v: int)
    requires k < |ss|
  {
    exists i :: 0 <= i <= k && ss[i].gauge == v
  }

  /** Every value a thread carries or a cell stores was in the gauge at some point. */
  ghost predicate PcHeld(ss: seq<State>, k: nat, pc: Pc)
    requires k < |ss|
  {
    match pc
    case RaiseMax(v) => Held(ss, k, v)
    case LowerMin(v) => Held(ss, k, v)
    case SetBounds(v) => Held(ss, k, v)
    case ReadCurrent(cur) => Held(ss, k, cur)
    case SwappedMin(cur, mn) => Held(ss, k, cur) && Held(ss, k, mn)
    case SwappedMax(cur, mn, mx) => Held(ss, k, cur) && Held(ss, k, mn) && Held(ss, k, mx)
    case ReadFixup(cur, mn, mx, fix) => Held(ss, k, cur) && Held(ss, k, mn) && Held(ss, k, mx) && Held(ss, k, fix)
    case FixedMin(cur, mn, mx, fix) => Held(ss, k, cur) && Held(ss, k, mn) && Held(ss, k, mx) && Held(ss, k, fix)
    case FixedMax(cur, mn, mx) => Held(ss, k, cur) && Held(ss, k, mn) && Held(ss, k, mx)
    case _ => true
  }

  lemma HeldLater(ss: seq<State>, k: nat, v: int)
    requires k + 1 < |ss| && Held(ss, k, v)
    ensures Held(ss, k + 1, v)
  {
    var i :| 0 <= i <= k && ss[i].gauge == v;
  }

  lemma PcHeldLater(ss: seq<State>, k: nat, pc: Pc)
    requires k + 1 < |ss| && PcHeld(ss, k, pc)
    ensures PcHeld(ss, k + 1, pc)
  {
    hide Held;
    forall v | Held(ss, k, v) ensures Held(ss, k + 1, v) {
      HeldLater(ss, k, v);
    }
  }

  /** The step's own thread and the two cells only ever pick up held values. */
  lemma StepPicksHeld(ss: seq<State>, es: seq<Event>, j: nat)
    requires IsRun(ss, es) && j < |es|
    requires Held(ss, j + 1, ss[j].min) && Held(ss, j + 1, ss[j].max) && PcHeld(ss, j + 1, ss[j].Pc(es[j].t))
    requires Held(ss, j + 1, ss[j].gauge) && Held(ss, j + 1, ss[j + 1].gauge)
    ensures Held(ss, j + 1, ss[j + 1].min) && Held(ss, j + 1, ss[j + 1].max)
    ensures PcHeld(ss, j + 1, ss[j + 1].Pc(es[j].t))
  {
    hide Held;
    assert ss[j + 1] == Step(ss[j], es[j].t, es[j].a);
  }

  /** Every extreme a scrape reports, and every bound ever stored, is a value the gauge really held. */
  lemma {:induction false} ExtremesWereHeld(ss: seq<State>, es: seq<Event>, k: nat)
    requires IsRun(ss, es) && k < |ss|
    ensures Held(ss, k, ss[k].min) && Held(ss, k, ss[k].max)
    ensures forall t: Tid :: PcHeld(ss, k, ss[k].Pc(t))
  {
    hide Held, PcHeld, Step;
    HeldNow(ss, k);
    if k == 0 {
      IdleHeld(ss);
    } else {
      var j := k - 1;
      ExtremesWereHeld(ss, es, j);
      HeldNow(ss, j);
      HeldLater(ss, j, ss[j].gauge);
      HeldLater(ss, j, ss[j].min);
      HeldLater(ss, j, ss[j].max);
      PcHeldLater(ss, j, ss[j].Pc(es[j].t));
      StepPicksHeld(ss, es, j);
      forall t: Tid ensures PcHeld(ss, k, ss[k].Pc(t)) {
        if t != es[j].t {
          PcHeldLater(ss, j, ss[j].Pc(t));
          OthersStay(ss, es, j, t);
        }
      }
    }
  }

  lemma HeldNow(ss: seq<State>, k: nat)
    requires k < |ss|
    ensures Held(ss, k, ss[k].gauge)
  {
  }

  lemma IdleHeld(ss: seq<State>)
    requires |ss| > 0
    ensures PcHeld(ss, 0, Idle)
  {
  }

  lemma OthersStay(ss: seq<State>, es: seq<Event>, j: nat, t: Tid)
    requires IsRun(ss, es) && j < |es| && t != es[j].t
    ensures ss[j + 1].Pc(t) == ss[j].Pc(t)
  {
    assert ss[j + 1] == Step(ss[j], es[j].t, es[j].a);
  }

  /**
   No operation waits for anything but a scrape in progress, and that one can always
   go on; the only other condition is that the gauge stays within `u64`.
   */
  lemma NoDeadlock(ss: seq<State>, es: seq<Event>, k: nat, t: Tid, n: nat)
    requires IsRun(ss, es) && k < |ss|
    ensures !ss[k].Pc(t).Idle? ==> Enabled(ss[k], t, Resume)
    ensures ss[k].Pc(t).Idle? ==>
      && (Enabled(ss[k], t, IncBy(n)) <==> ss[k].gauge + n < 18446744073709551616)
      && (Enabled(ss[k], t, DecBy(n)) <==> n <= ss[k].gauge)
      && (Enabled(ss[k], t, Set(n)) <==> n < 18446744073709551616)
      && (Enabled(ss[k], t, GetValues) || exists u: Tid :: InScrape(ss[k].Pc(u)) && Enabled(ss[k], u, Resume))
  {
    RunKeepsInv(ss, es, k);
    if ss[k].resetCs.Some? {
      var u := ss[k].resetCs.value;
      assert InScrape(ss[k].Pc(u)) && Enabled(ss[k], u, Resume);
    }
  }

  // ---- sequential use -----------------------------------------------------------------------

  datatype Bounds = Bounds(gauge: int, min: int, max: int)

  /** A complete operation with no other thread in between. */
  function RunAlone(b: Bounds, a: Action): Bounds {
    match a
    case IncBy(n) => Bounds(b.gauge + n, b.min, Max(b.max, b.gauge + n))
    case DecBy(n) => Bounds(b.gauge - n, Min(b.min, b.gauge - n), b.max)
    case Set(n) => Bounds(n, Min(b.min, n), Max(b.max, n))
    case GetValues => Bounds(b.gauge, b.gauge, b.gauge)
    case Resume => b
  }

  function StepsOf(a: Action): nat {
    match a
    case IncBy(_) => 1
    case DecBy(_) => 1
    case Set(_) => 2
    case GetValues => 7
    case Resume => 0
  }

  function Resumes(s: State, t: Tid, n: nat): State
    decreases n
  {
    if n == 0 || s.Pc(t).Idle? then s else Resumes(Step(s, t, Resume), t, n - 1)
  }

  /** Running one thread's operation to its end in the step system is `RunAlone`. */
  lemma StepsRunAlone(s: State, t: Tid, a: Action)
    requires !a.Resume? && Enabled(s, t, a)
    ensures var s' := Resumes(Step(s, t, a), t, StepsOf(a));
            && s'.Pc(t).Idle?
            && Bounds(s'.gauge, s'.min, s'.max) == RunAlone(Bounds(s.gauge, s.min, s.max), a)
  {
    var s1 := Step(s, t, a);
    var s2 := Step(s1, t, Resume);
    match a
    case IncBy(_) => assert Resumes(s1, t, 1) == Resumes(s2, t, 0);
    case DecBy(_) => assert Resumes(s1, t, 1) == Resumes(s2, t, 0);
    case Set(_) =>
      assert Resumes(s1, t, 2) == Resumes(s2, t, 1) == Resumes(Step(s2, t, Resume), t, 0);
    case GetValues =>
      var s3 := Step(s2, t, Resume);
      var s4 := Step(s3, t, Resume);
      var s5 := Step(s4, t, Resume);
      var s6 := Step(s5, t, Resume);
      var s7 := Step(s6, t, Resume);
      var s8 := Step(s7, t, Resume);
      assert Resumes(s1, t, 7) == Resumes(s2, t, 6);
      assert Resumes(s2, t, 6) == Resumes(s3, t, 5);
      assert Resumes(s3, t, 5) == Resumes(s4, t, 4);
      assert Resumes(s4, t, 4) == Resumes(s5, t, 3);
      assert Resumes(s5, t, 3) == Resumes(s6, t, 2);
      assert Resumes(s6, t, 2) == Resumes(s7, t, 1);
      assert Resumes(s7, t, 1) == Resumes(s8, t, 0);
  }

  function Least(vs: seq<int>): int
    requires vs != []
  {
    if |vs| == 1 then vs[0] else Min(Least(vs[..|vs| - 1]), vs[|vs| - 1])
  }

  function Greatest(vs: seq<int>): int
    requires vs != []
  {
    if |vs| == 1 then vs[0] else Max(Greatest(vs[..|vs| - 1]), vs[|vs| - 1])
  }

  lemma {:induction false} LeastIsLeast(vs: seq<int>)
    requires vs != []
    ensures Least(vs) in vs && forall v :: v in vs ==> Least(vs) <= v
    ensures Greatest(vs) in vs && forall v :: v in vs ==> v <= Greatest(vs)
  {
    if |vs| > 1 {
      LeastIsLeast(vs[..|vs| - 1]);
      assert vs == vs[..|vs| - 1] + [vs[|vs| - 1]];
    }
  }

  /** The gauge as single-threaded code sees it. `held` lists its values since the last scrape. */
  class Cell {
    var gauge: int
    var min: int
    var max: int
    ghost var held: seq<int>

    ghost predicate Valid()
      reads this
    {
      && 0 <= gauge < U64_LIMIT
      && held != [] && held[|held| - 1] == gauge
      && min == Least(held) && max == Greatest(held)
    }

    function Now(): Bounds
      reads this
    {
      Bounds(gauge, min, max)
    }

    constructor ()
      ensures Valid() && held == [0]
    {
      gauge, min, max := 0, 0, 0;
      held := [0];
    }

    method IncBy(n: nat) returns (prev: int)
      requires Valid() && gauge + n < U64_LIMIT
      modifies this
      ensures Valid() && prev == old(gauge) && held == old(held) + [prev + n]
      ensures Now() == RunAlone(old(Now()), Action.IncBy(n))
    {
      prev := gauge;
      gauge := gauge + n;
      max := Max(max, prev + n);
      LeastIsLeast(held);
      held := held + [prev + n];
      assert held[..|held| - 1] == old(held);
    }

    method DecBy(n: nat) returns (prev: int)
      requires Valid() && n <= gauge
      modifies this
      ensures Valid() && prev == old(gauge) && held == old(held) + [prev - n]
      ensures Now() == RunAlone(old(Now()), Action.DecBy(n))
    {
      prev := gauge;
      gauge := gauge - n;
      min := Min(min, prev - n);
      LeastIsLeast(held);
      held := held + [prev - n];
      assert held[..|held| - 1] == old(held);
    }

    method Set(n: nat) returns (prev: int)
      requires Valid() && n < U64_LIMIT
      modifies this
      ensures Valid() && prev == old(gauge) && held == old(held) + [n]
      ensures Now() == RunAlone(old(Now()), Action.Set(n))
    {
      prev := gauge;
      gauge := n;
      max := Max(max, n);
      min := Min(min, n);
      held := held + [n];
      assert held[..|held| - 1] == old(held);
    }

    /** Sequentially a scrape reports exactly the extremes of the values held since the previous one. */
    method GetValues() returns (mn: int, current: int, mx: int)
      requires Valid()
      modifies this
      ensures Valid() && held == [old(gauge)] && gauge == old(gauge)
      ensures mn == Least(old(held)) && current == old(gauge) && mx == Greatest(old(held))
      ensures Now() == RunAlone(old(Now()), Action.GetValues)
    {
      LeastIsLeast(held);
      current := gauge;
      mn := Min(current, min);
      min := current;
      mx := Max(current, max);
      max := current;
      var currentFixup := gauge;
      min := Min(min, currentFixup);
      max := Max(max, currentFixup);
      held := [gauge];
    }
  }
}
