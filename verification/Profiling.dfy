/**
 The generation-guarded span recorder: one atomic and one mutex, shared by any
 number of threads that open and drop spans while recordings start, finish and
 are abandoned. Each method is one step no other thread can be in the middle of:
 a read of the atomic, or a stretch under the mutex.
 */
module Profiling {
  import opened Prelude

  const MAX_LABELS: nat := 64

  /** The largest generation number; one past it is refused. */
  const U64_MAX: nat := 0xFFFF_FFFF_FFFF_FFFF

  datatype Entry = Entry(name: string, calls: nat, elapsed: nat)

  datatype Report = Report(entries: seq<Entry>, unknown: nat, unfinished: nat)

  datatype StartError = AlreadyRecording | DuplicateLabel(name: string) | TooManyLabels | GenerationExhausted

  /** What happened in one recording, in order. */
  datatype Event = Admitted(index: nat) | Unknown | Completed(index: nat, elapsed: nat)

  function Admissions(events: seq<Event>): nat {
    if events == [] then 0
    else Admissions(events[..|events| - 1]) + (if events[|events| - 1].Admitted? then 1 else 0)
  }

  function Completions(events: seq<Event>): nat {
    if events == [] then 0
    else Completions(events[..|events| - 1]) + (if events[|events| - 1].Completed? then 1 else 0)
  }

  function Unknowns(events: seq<Event>): nat {
    if events == [] then 0
    else Unknowns(events[..|events| - 1]) + (if events[|events| - 1].Unknown? then 1 else 0)
  }

  function Calls(events: seq<Event>, index: nat): nat {
    if events == [] then 0
    else
      var last := events[|events| - 1];
      Calls(events[..|events| - 1], index) + (if last.Completed? && last.index == index then 1 else 0)
  }

  function Elapsed(events: seq<Event>, index: nat): nat {
    if events == [] then 0
    else
      var last := events[|events| - 1];
      Elapsed(events[..|events| - 1], index) + (if last.Completed? && last.index == index then last.elapsed else 0)
  }

  /** The calls of every label together. */
  function TotalCalls(entries: seq<Entry>): nat {
    if entries == [] then 0 else TotalCalls(entries[..|entries| - 1]) + entries[|entries| - 1].calls
  }

  /** A report that says what happened in a recording of `labels`, and nothing
      else. */
  ghost predicate Reports(r: Report, labels: seq<string>, events: seq<Event>) {
    && |r.entries| == |labels|
    && (forall i :: 0 <= i < |labels| ==>
          r.entries[i] == Entry(labels[i], Calls(events, i), Elapsed(events, i)))
    && r.unknown == Unknowns(events)
    && r.unfinished + Completions(events) == Admissions(events)
    && (forall k :: 0 <= k < |events| && !events[k].Unknown? ==> events[k].index < |labels|)
  }

  /** The counts of a history are those of its two halves together, wherever it is
      cut, and of one event they are what the event says. */
  lemma {:induction false} CountsAdd(a: seq<Event>, b: seq<Event>, index: nat)
    ensures Admissions(a + b) == Admissions(a) + Admissions(b)
    ensures Completions(a + b) == Completions(a) + Completions(b)
    ensures Unknowns(a + b) == Unknowns(a) + Unknowns(b)
    ensures Calls(a + b, index) == Calls(a, index) + Calls(b, index)
    ensures Elapsed(a + b, index) == Elapsed(a, index) + Elapsed(b, index)
  {
    if b == [] {
      assert a + b == a;
    } else {
      var n := |b| - 1;
      assert (a + b)[..|a| + n] == a + b[..n];
      CountsAdd(a, b[..n], index);
    }
  }

  lemma OneEventCounts(i: nat, elapsed: nat, j: nat)
    ensures Admissions([Admitted(i)]) == 1 && Completions([Admitted(i)]) == 0 && Unknowns([Admitted(i)]) == 0
    ensures Calls([Admitted(i)], j) == 0 && Elapsed([Admitted(i)], j) == 0
    ensures Admissions([Unknown]) == 0 && Completions([Unknown]) == 0 && Unknowns([Unknown]) == 1
    ensures Calls([Unknown], j) == 0 && Elapsed([Unknown], j) == 0
    ensures var done := [Completed(i, elapsed)];
            && Admissions(done) == 0 && Completions(done) == 1 && Unknowns(done) == 0
            && Calls(done, j) == (if i == j then 1 else 0) && Elapsed(done, j) == (if i == j then elapsed else 0)
  {
    assert forall e: Event :: [e][..0] == [];
  }

  lemma {:induction false} CallsCover(events: seq<Event>, entries: seq<Entry>, n: nat)
    requires n <= |entries| && forall i :: 0 <= i < |entries| ==> entries[i].calls == Calls(events, i)
    ensures TotalCalls(entries[..n]) == CompletedBelow(events, n)
  {
    if n > 0 {
      assert entries[..n][..n - 1] == entries[..n - 1];
      CallsCover(events, entries, n - 1);
      BelowSteps(events, n - 1);
    } else {
      NoneBelow(events);
    }
  }

  function CompletedBelow(events: seq<Event>, n: nat): nat {
    if events == [] then 0
    else
      var last := events[|events| - 1];
      CompletedBelow(events[..|events| - 1], n) + (if last.Completed? && last.index < n then 1 else 0)
  }

  lemma {:induction false} BelowSteps(events: seq<Event>, n: nat)
    ensures CompletedBelow(events, n + 1) == CompletedBelow(events, n) + Calls(events, n)
  {
    if events != [] {
      BelowSteps(events[..|events| - 1], n);
    }
  }

  lemma {:induction false} NoneBelow(events: seq<Event>)
    ensures CompletedBelow(events, 0) == 0
  {
    if events != [] {
      NoneBelow(events[..|events| - 1]);
    }
  }

  lemma {:induction false} AllBelow(events: seq<Event>, n: nat)
    requires forall k :: 0 <= k < |events| && events[k].Completed? ==> events[k].index < n
    ensures CompletedBelow(events, n) == Completions(events)
  {
    if events != [] {
      AllBelow(events[..|events| - 1], n);
    }
  }

  /** Conservation: every span a recording admitted is one of the calls its report
      counts or one of those it calls unfinished. */
  lemma ReportConserves(r: Report, labels: seq<string>, events: seq<Event>)
    requires Reports(r, labels, events)
    ensures TotalCalls(r.entries) + r.unfinished == Admissions(events)
  {
    CallsCover(events, r.entries, |r.entries|);
    assert r.entries[..|r.entries|] == r.entries;
    AllBelow(events, |labels|);
  }

  lemma ReportsMore(r: Report, r': Report, labels: seq<string>, events: seq<Event>, e: Event)
    requires Reports(r, labels, events) && |r'.entries| == |labels|
    requires !e.Unknown? ==> e.index < |labels|
    requires r'.unknown == r.unknown + (if e.Unknown? then 1 else 0)
    requires r'.unfinished + (if e.Completed? then 1 else 0) == r.unfinished + (if e.Admitted? then 1 else 0)
    requires forall i :: 0 <= i < |labels| ==>
               r'.entries[i] == (if e.Completed? && e.index == i
                                 then Entry(labels[i], r.entries[i].calls + 1, r.entries[i].elapsed + e.elapsed)
                                 else r.entries[i])
    ensures Reports(r', labels, events + [e])
  {
    assert (events + [e])[..|events|] == events;
  }

  // ----- the shared state

  /** An admitted span, as the thread timing something holds it; `id` tells apart
      spans the source tells apart by ownership. */
  datatype Span = Span(id: nat, generation: nat, index: nat)

  ghost predicate Distinct(labels: seq<string>) {
    forall i, j :: 0 <= i < j < |labels| ==> labels[i] != labels[j]
  }

  class Recorder {
    /** The atomic, read outside the mutex. */
    var active: nat
    // under the mutex
    var generation: nat
    var report: Option<Report>
    /** Whether an unfinished recording guard is held somewhere. */
    var guarded: bool
    var minted: nat

    /** Spans admitted and not yet dropped, of this recording and of earlier ones. */
    ghost var live: set<Span>
    ghost var labels: seq<string>
    ghost var events: seq<Event>

    ghost predicate Valid()
      reads this
    {
      && (guarded <==> report.Some?)
      && active == (if report.Some? then generation else 0)
      && (report.Some? ==> 0 < generation)
      && generation <= U64_MAX
      && (forall s :: s in live ==> s.id < minted && s.generation <= generation)
      && (forall s, t :: s in live && t in live && s.id == t.id ==> s == t)
      && (report.Some? ==>
            && Reports(report.value, labels, events)
            && report.value.unfinished == |Open()|
            && (forall s :: s in Open() ==> s.index < |labels|))
    }

    /** The live spans of the recording under way. */
    ghost function Open(): set<Span>
      reads this
    {
      set s | s in live && s.generation == generation
    }

    constructor ()
      ensures Valid() && report == None && live == {}
      ensures active == 0 && generation == 0 && !guarded
    {
      active, generation, report, guarded, minted := 0, 0, None, false, 0;
      live, labels, events := {}, [], [];
    }

    /** Arm a recording. A refusal changes nothing. */
    method Start(labels: seq<string>) returns (r: Option<StartError>)
      requires Valid()
      modifies this
      ensures Valid() && live == old(live)
      ensures r.Some? ==> report == old(report) && generation == old(generation) && events == old(events)
                          && this.labels == old(this.labels) && active == old(active)
      ensures r.None? ==> old(report).None? && generation == old(generation) + 1 && active == generation
      ensures r.None? ==> report.Some? && events == [] && this.labels == labels
      // each refusal has its own reason, given in this order
      ensures r == Some(TooManyLabels) <==> |labels| > 64
      ensures r.Some? && r.value.DuplicateLabel? <==> |labels| <= 64 && !Distinct(labels)
      ensures r.Some? && r.value.DuplicateLabel? ==>
                exists i, j :: 0 <= i < j < |labels| && labels[i] == labels[j] == r.value.name
      ensures r == Some(AlreadyRecording) <==>
                |labels| <= 64 && Distinct(labels) && old(report).Some?
      ensures r == Some(GenerationExhausted) <==>
                |labels| <= 64 && Distinct(labels) && old(report).None? && old(generation) == 0xFFFF_FFFF_FFFF_FFFF
    {
      if |labels| > MAX_LABELS {
        return Some(TooManyLabels);
      }
      for i := 0 to |labels|
        invariant Distinct(labels[..i])
      {
        if labels[i] in labels[..i] {
          ghost var a :| 0 <= a < i && labels[..i][a] == labels[i];
          assert labels[a] == labels[i];
          return Some(DuplicateLabel(labels[i]));
        }
        assert forall a :: 0 <= a < i ==> labels[..i][a] != labels[i];
      }
      assert labels[..|labels|] == labels;
      if report.Some? {
        return Some(AlreadyRecording);
      }
      if generation >= U64_MAX {
        return Some(GenerationExhausted);
      }
      generation := generation + 1;
      report := Some(Report(seq(|labels|, i requires 0 <= i < |labels| => Entry(labels[i], 0, 0)), 0, 0));
      guarded := true;
      this.labels, events := labels, [];
      active := generation;
      assert Open() == {};
      r := None;
    }

    /** The first half of opening a span: the atomic, read without the mutex. */
    method LoadActive() returns (seen: nat)
      requires Valid()
      ensures seen == (if report.Some? then generation else 0)
    {
      seen := active;
    }

    /** The second half, under the mutex, with whatever the first half saw, however
        long ago. A span is admitted only into the recording that was seen. */
    method Admit(seen: nat, name: string) returns (s: Option<Span>)
      requires Valid() && seen != 0
      modifies this
      ensures Valid() && generation == old(generation) && active == old(active) && labels == old(labels)
      ensures seen != generation || old(report).None? ==>
                s == None && report == old(report) && events == old(events) && live == old(live)
      ensures seen == generation && old(report).Some? && name !in labels ==>
                s == None && report.Some? && events == old(events) + [Unknown] && live == old(live)
      ensures seen == generation && old(report).Some? && name in labels ==>
                && s.Some? && report.Some? && s.value !in old(live) && live == old(live) + {s.value}
                && s.value.generation == seen && s.value.index < |labels| && labels[s.value.index] == name
                && events == old(events) + [Admitted(s.value.index)]
    {
      hide Admissions, Completions, Calls, Elapsed, Unknowns;
      if generation != seen || report.None? {
        return None;
      }
      var now := report.value;
      var at := Position(now.entries, name);
      if at.None? {
        report := Some(now.(unknown := now.unknown + 1));
        ReportsMore(now, report.value, labels, events, Unknown);
        events := events + [Unknown];
        assert name !in labels;
        return None;
      }
      report := Some(now.(unfinished := now.unfinished + 1));
      ReportsMore(now, report.value, labels, events, Admitted(at.value));
      events := events + [Admitted(at.value)];
      var span := Span(minted, generation, at.value);
      ghost var was := Open();
      minted := minted + 1;
      live := live + {span};
      assert Open() == was + {span};
      s := Some(span);
    }

    /** Drop a span. Only the recording it was admitted into, while it is under
        way, is told. */
    method Drop(s: Span, elapsed: nat)
      requires Valid() && s in live
      modifies this
      ensures Valid() && live == old(live) - {s} && generation == old(generation) && active == old(active)
      ensures labels == old(labels)
      ensures s.generation != generation || old(report).None? ==> report == old(report) && events == old(events)
      ensures s.generation == generation && old(report).Some? ==>
                report.Some? && events == old(events) + [Completed(s.index, elapsed)]
    {
      hide Admissions, Completions, Calls, Elapsed, Unknowns;
      ghost var was := Open();
      live := live - {s};
      if generation != s.generation {
        assert Open() == was;
        return;
      }
      assert Open() == was - {s} && s in was;
      if report.Some? {
        var now := report.value;
        var entry := now.entries[s.index];
        var entries := now.entries[s.index := entry.(calls := entry.calls + 1, elapsed := entry.elapsed + elapsed)];
        report := Some(now.(entries := entries, unfinished := now.unfinished - 1));
        ReportsMore(now, report.value, labels, events, Completed(s.index, elapsed));
        events := events + [Completed(s.index, elapsed)];
      }
    }

    /** Stop admitting spans and hand the report over: it tells this recording's
        events and no others, and no span it admitted is lost from it. */
    method Finish() returns (r: Report)
      requires Valid() && guarded
      modifies this
      ensures Valid() && report == None && active == 0 && !guarded && live == old(live)
      ensures generation == old(generation)
      ensures Reports(r, old(labels), old(events))
      ensures TotalCalls(r.entries) + r.unfinished == Admissions(old(events))
      ensures r.unfinished == |old(Open())|
    {
      ReportConserves(report.value, labels, events);
      active := 0;
      guarded := false;
      r := report.value;
      report := None;
    }

    /** Drop the guard of a recording that was not finished. */
    method Abandon()
      requires Valid() && guarded
      modifies this
      ensures Valid() && report == None && active == 0 && !guarded && live == old(live)
      ensures generation == old(generation)
    {
      active := 0;
      guarded := false;
      report := None;
    }
  }

  function Position(entries: seq<Entry>, name: string): (at: Option<nat>)
    ensures at.Some? ==> at.value < |entries| && entries[at.value].name == name
    ensures at.None? ==> forall i :: 0 <= i < |entries| ==> entries[i].name != name
  {
    if entries == [] then None
    else if entries[0].name == name then Some(0)
    else match Position(entries[1..], name)
         case Some(i) => Some(i + 1)
         case None => None
  }
}
