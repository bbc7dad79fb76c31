/** The timer of the time histogram: pausing, resuming, and recording at most once. */
module HistogramTimers {
  import opened Base
  import opened TimeHistograms

  /** A pause or resume request and the clock reading it saw. */
  datatype Request = Paused(at: nat) | Resumed(at: nat)

  function LastAt(started: nat, events: seq<Request>): nat {
    if events == [] then started else events[|events| - 1].at
  }

  predicate Running(events: seq<Request>) {
    events == [] || events[|events| - 1].Resumed?
  }

  /** The clock never goes back. */
  predicate InOrder(started: nat, events: seq<Request>) {
    events == []
    || (InOrder(started, events[..|events| - 1])
        && LastAt(started, events[..|events| - 1]) <= LastAt(started, events))
  }

  /** The time from the start to `now` spent running, interval by interval. */
  function RunningTime(started: nat, events: seq<Request>, now: nat): nat
    decreases |events|
  {
    var last := LastAt(started, events);
    (if Running(events) && last <= now then now - last else 0)
    + if events == [] then 0 else RunningTime(started, events[..|events| - 1], last)
  }

  function PausedTime(started: nat, events: seq<Request>, now: nat): nat
    decreases |events|
  {
    var last := LastAt(started, events);
    (if !Running(events) && last <= now then now - last else 0)
    + if events == [] then 0 else PausedTime(started, events[..|events| - 1], last)
  }

  /** No time is lost or counted twice, whatever the requests. */
  lemma {:induction false} TimeIsConserved(started: nat, events: seq<Request>, now: nat)
    requires InOrder(started, events) && LastAt(started, events) <= now
    ensures RunningTime(started, events, now) + PausedTime(started, events, now) == now - started
    decreases |events|
  {
    if events != [] {
      TimeIsConserved(started, events[..|events| - 1], LastAt(started, events));
    }
  }

  /** A timer starts running; from a resume on it runs, from a pause on it stands still. */
  lemma RunningTimeSplits(started: nat, events: seq<Request>, e: Request, now: nat)
    requires LastAt(started, events) <= e.at <= now
    ensures started <= now ==> RunningTime(started, [], now) == now - started
    ensures RunningTime(started, events + [e], now)
         == RunningTime(started, events, e.at) + if e.Resumed? then now - e.at else 0
  {
    assert (events + [e])[..|events|] == events;
  }

  class HistogramTimer {
    const histogram: TimeHistogramCell
    var observed: bool
    var start: Option<nat>
    var accumulated: nat
    ghost const started: nat
    ghost var events: seq<Request>

    ghost predicate Valid()
      reads this
    {
      && InOrder(started, events)
      && (start.Some? <==> Running(events))
      && (start.Some? ==> start.value <= LastAt(started, events))
      && accumulated + (if start.Some? then LastAt(started, events) - start.value else 0)
         == RunningTime(started, events, LastAt(started, events))
    }

    constructor (histogram: TimeHistogramCell, now: nat)
      ensures Valid() && !observed && started == now && events == [] && this.histogram == histogram
    {
      this.histogram := histogram;
      observed, start, accumulated := false, Some(now), 0;
      started, events := now, [];
    }

    method Pause(now: nat)
      requires Valid() && LastAt(started, events) <= now
      modifies this
      ensures Valid() && events == old(events) + [Paused(now)] && observed == old(observed)
    {
      RunningTimeSplits(started, events, Paused(now), now);
      assert (events + [Paused(now)])[..|events|] == events;
      accumulated := accumulated + if start.Some? && start.value <= now then now - start.value else 0;
      start := None;
      events := events + [Paused(now)];
    }

    method Resume(now: nat)
      requires Valid() && LastAt(started, events) <= now
      modifies this
      ensures Valid() && events == old(events) + [Resumed(now)] && observed == old(observed)
    {
      RunningTimeSplits(started, events, Resumed(now), now);
      assert (events + [Resumed(now)])[..|events|] == events;
      if start.None? {
        start := Some(now);
      }
      events := events + [Resumed(now)];
    }

    /** The elapsed time is exactly the running time; the histogram gets it if asked. */
    method Observe(record: bool, now: nat) returns (elapsed: nat)
      requires Valid() && histogram.Valid() && LastAt(started, events) <= now
      modifies this, histogram
      ensures Valid() && histogram.Valid() && observed && events == old(events)
      ensures elapsed == RunningTime(started, events, now)
      ensures histogram.bounds == old(histogram.bounds)
      ensures histogram.observed == old(histogram.observed) + if record then [Wrap(elapsed)] else []
    {
      elapsed := (if start.Some? && start.value <= now then now - start.value else 0) + accumulated;
      observed := true;
      if record {
        var bucket := histogram.ObserveAndBucket(Wrap(elapsed));
      }
    }

    method Drop(now: nat)
      requires Valid() && histogram.Valid() && LastAt(started, events) <= now
      modifies this, histogram
      ensures Valid() && histogram.Valid() && observed && events == old(events)
      ensures histogram.bounds == old(histogram.bounds)
      ensures histogram.observed == old(histogram.observed)
                                    + if old(observed) then [] else [Wrap(RunningTime(started, events, now))]
    {
      if !observed {
        var elapsed := Observe(true, now);
      }
    }

    /** `stop_and_record` and `stop_and_discard`: the drop that follows records nothing more. */
    method Stop(record: bool, now: nat, dropped: nat) returns (elapsed: nat)
      requires Valid() && histogram.Valid() && LastAt(started, events) <= now <= dropped
      modifies this, histogram
      ensures Valid() && histogram.Valid() && observed
      ensures elapsed == RunningTime(started, old(events), now)
      ensures histogram.observed == old(histogram.observed) + if record then [Wrap(elapsed)] else []
    {
      elapsed := Observe(record, now);
      Drop(dropped);
    }
  }
}
