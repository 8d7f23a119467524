/** One sampling round over several nodes, and runs of rounds that feed the project counter. */
module Rounds {
  import opened Wrappers
  import opened Billing
  import opened Counters
  import opened Traffic
  import opened Metering

  // The counters after each of the given nodes has been sampled once.
  ghost predicate SampledRound(before: map<string, Counter>, samples: map<string, Reading>, after: map<string, Counter>,
                               ids: set<string>, readings: map<string, Reading>, now: string -> Instant)
  {
    && ids <= before.Keys == after.Keys && ids <= readings.Keys
    && forall id :: id in after ==>
         after[id] == if id in ids then AfterNodeSample(before[id], Lookup(samples, id), readings[id], now(id))
                      else before[id]
  }

  // The deltas accepted from the nodes, in the order in which they were sampled.
  ghost predicate AcceptedDeltas(before: map<string, Counter>, samples: map<string, Reading>, order: seq<string>,
                                 deltas: seq<Reading>, readings: map<string, Reading>, now: string -> Instant)
  {
    |order| == |deltas|
    && forall k :: 0 <= k < |order| ==>
         && order[k] in before && order[k] in readings
         && deltas[k] == NodeDeltasAt(before[order[k]], samples, order[k], readings[order[k]], now(order[k]))
  }

  // Every id exactly once.
  ghost predicate Enumerates(order: seq<string>, ids: set<string>) {
    (set id | id in order) == ids && forall i, j :: 0 <= i < j < |order| ==> order[i] != order[j]
  }

  lemma SampledRoundStep(before: map<string, Counter>, samples: map<string, Reading>, after: map<string, Counter>,
                         ids: set<string>, readings: map<string, Reading>, now: string -> Instant,
                         id: string, c: Counter)
    requires SampledRound(before, samples, after, ids, readings, now)
    requires id in before && id in readings && id !in ids
    requires c == AfterNodeSample(before[id], Lookup(samples, id), readings[id], now(id))
    ensures SampledRound(before, samples, after[id := c], ids + {id}, readings, now)
  {}

  lemma AcceptedDeltasStep(before: map<string, Counter>, samples: map<string, Reading>, order: seq<string>,
                           deltas: seq<Reading>, readings: map<string, Reading>, now: string -> Instant,
                           id: string, delta: Reading)
    requires AcceptedDeltas(before, samples, order, deltas, readings, now)
    requires id in before && id in readings
    requires delta == NodeDeltasAt(before[id], samples, id, readings[id], now(id))
    ensures AcceptedDeltas(before, samples, order + [id], deltas + [delta], readings, now)
  {}

  lemma EnumeratesStep(order: seq<string>, active: set<string>, todo: set<string>, id: string)
    requires Enumerates(order, active - todo) && id in todo && todo <= active
    ensures active - (todo - {id}) == active - todo + {id}
    ensures Enumerates(order + [id], active - (todo - {id}))
  {
    assert active - (todo - {id}) == active - todo + {id};
    assert forall x :: x in order + [id] <==> x in order || x == id;
    forall i | 0 <= i < |order|
      ensures order[i] != id
    {
      assert order[i] in order;
      assert order[i] in (set x | x in order);
    }
  }

  // The store after sampling the nodes one after the other, and the deltas accepted.
  datatype RoundResult = RoundResult(counters: map<string, Counter>, samples: map<string, Reading>,
                                     deltas: seq<Reading>)

  predicate Covers(counters: map<string, Counter>, readings: map<string, Reading>, order: seq<string>) {
    forall k :: 0 <= k < |order| ==> order[k] in counters && order[k] in readings
  }

  function RoundNext(r: RoundResult, id: string, raw: Reading, now: Instant): RoundResult
    requires id in r.counters
  {
    RoundResult(r.counters[id := AfterNodeSample(r.counters[id], Lookup(r.samples, id), raw, now)],
                r.samples[id := raw],
                r.deltas + [NodeDeltasAt(r.counters[id], r.samples, id, raw, now)])
  }

  function RunRound(counters: map<string, Counter>, samples: map<string, Reading>, readings: map<string, Reading>,
                    now: string -> Instant, order: seq<string>): (r: RoundResult)
    ensures r.counters.Keys == counters.Keys
  {
    if |order| == 0 then RoundResult(counters, samples, [])
    else
      var n := |order| - 1;
      var id := order[n];
      var r := RunRound(counters, samples, readings, now, order[..n]);
      if id in counters && id in readings then RoundNext(r, id, readings[id], now(id)) else r
  }

  lemma {:induction false} RoundOthers(counters: map<string, Counter>, samples: map<string, Reading>,
                                       readings: map<string, Reading>, now: string -> Instant,
                                       order: seq<string>, id: string)
    requires id !in order
    ensures var r := RunRound(counters, samples, readings, now, order);
            (id in counters ==> r.counters[id] == counters[id]) && Lookup(r.samples, id) == Lookup(samples, id)
    decreases |order|
  {
    if |order| > 0 {
      RoundOthers(counters, samples, readings, now, order[..|order| - 1], id);
    }
  }

  // What the round has done so far, given by the state before it.
  ghost predicate Pointwise(counters: map<string, Counter>, samples: map<string, Reading>,
                            readings: map<string, Reading>, now: string -> Instant, order: seq<string>, r: RoundResult)
  {
    && SampledRound(counters, samples, r.counters, (set id | id in order), readings, now)
    && AcceptedDeltas(counters, samples, order, r.deltas, readings, now)
  }

  lemma PointwiseStep(counters: map<string, Counter>, samples: map<string, Reading>, readings: map<string, Reading>,
                      now: string -> Instant, order: seq<string>, r: RoundResult, id: string)
    requires Pointwise(counters, samples, readings, now, order, r)
    requires id in counters && id in readings && id !in order
    requires r.counters[id] == counters[id] && Lookup(r.samples, id) == Lookup(samples, id)
    ensures Pointwise(counters, samples, readings, now, order + [id], RoundNext(r, id, readings[id], now(id)))
  {
    var s := RoundNext(r, id, readings[id], now(id));
    assert (set x | x in order + [id]) == (set x | x in order) + {id};
    SampledRoundStep(counters, samples, r.counters, (set x | x in order), readings, now, id, s.counters[id]);
    AcceptedDeltasStep(counters, samples, order, r.deltas, readings, now, id, s.deltas[|order|]);
  }

  // Sampling distinct nodes one after the other samples each of them once, from the
  // state before the round, whatever the order.
  lemma {:induction false} RoundPointwise(counters: map<string, Counter>, samples: map<string, Reading>,
                                          readings: map<string, Reading>, now: string -> Instant, order: seq<string>)
    requires Covers(counters, readings, order)
    requires forall i, j :: 0 <= i < j < |order| ==> order[i] != order[j]
    ensures Pointwise(counters, samples, readings, now, order, RunRound(counters, samples, readings, now, order))
    decreases |order|
  {
    if |order| > 0 {
      var n := |order| - 1;
      var before, id := order[..n], order[n];
      assert id in counters && id in readings && id !in before;
      RoundPointwise(counters, samples, readings, now, before);
      RoundOthers(counters, samples, readings, now, before, id);
      PointwiseStep(counters, samples, readings, now, before, RunRound(counters, samples, readings, now, before), id);
      RunRoundAppend(counters, samples, readings, now, before, id);
      assert order == before + [id];
    }
  }

  lemma RunRoundAppend(counters: map<string, Counter>, samples: map<string, Reading>, readings: map<string, Reading>,
                       now: string -> Instant, order: seq<string>, id: string)
    requires id in counters && id in readings
    ensures var r := RunRound(counters, samples, readings, now, order);
            id in r.counters
            && RunRound(counters, samples, readings, now, order + [id])
            == RoundNext(r, id, readings[id], now(id))
  {
    assert (order + [id])[..|order|] == order;
  }

  // What one round does, for whichever order the nodes came in.
  lemma RoundDone(counters: map<string, Counter>, samples: map<string, Reading>, readings: map<string, Reading>,
                  now: string -> Instant, order: seq<string>, ids: set<string>, r: RoundResult)
    requires Enumerates(order, ids) && ids <= counters.Keys && ids <= readings.Keys
    requires r == RunRound(counters, samples, readings, now, order)
    ensures SampledRound(counters, samples, r.counters, ids, readings, now)
    ensures AcceptedDeltas(counters, samples, order, r.deltas, readings, now)
  {
    forall k | 0 <= k < |order|
      ensures order[k] in ids
    {
      assert order[k] in (set id | id in order);
    }
    RoundPointwise(counters, samples, readings, now, order);
  }

  // One pass of the loop: the store samples the node and the delta it accepts is kept.
  method SampleOne(store: Store, id: string, raw: Reading, now: Instant, deltas: seq<Reading>)
    returns (delta: Reading, paused: bool)
    requires store.Valid() && id in store.nodes && raw.upload >= 0 && raw.download >= 0
    modifies store`nodes, store`nodeSamples
    ensures store.Valid() && store.nodes.Keys == old(store.nodes.Keys)
    ensures RoundResult(store.nodes, store.nodeSamples, deltas + [delta])
         == RoundNext(RoundResult(old(store.nodes), old(store.nodeSamples), deltas), id, raw, now)
    ensures delta.upload >= 0 && delta.download >= 0 && paused == store.nodes[id].paused
    ensures forall other :: other in store.nodes && other != id ==> store.nodes[other] == old(store.nodes)[other]
  {
    var result := store.Sample(id, raw.upload, raw.download, now);
    delta := Reading(result.value.deltaUpload, result.value.deltaDownload);
    paused := result.value.paused;
  }

  // The flags reported for the nodes sampled so far.
  ghost predicate Flags(paused: map<string, bool>, nodes: map<string, Counter>, ids: set<string>) {
    paused.Keys == ids && ids <= nodes.Keys && forall id :: id in paused ==> paused[id] == nodes[id].paused
  }

  lemma FlagsStep(paused: map<string, bool>, before: map<string, Counter>, after: map<string, Counter>,
                  ids: set<string>, id: string)
    requires Flags(paused, before, ids) && id in after && before.Keys == after.Keys
    requires forall other :: other in after && other != id ==> after[other] == before[other]
    ensures Flags(paused[id := after[id].paused], after, ids + {id})
  {}

  // What the loop has done when the nodes in todo are still to come.
  ghost predicate Progress(counters: map<string, Counter>, samples: map<string, Reading>,
                           readings: map<string, Reading>, now: string -> Instant, active: set<string>,
                           todo: set<string>, order: seq<string>, r: RoundResult, paused: map<string, bool>)
  {
    && todo <= active && active <= counters.Keys && active <= readings.Keys
    && Enumerates(order, active - todo)
    && r == RunRound(counters, samples, readings, now, order)
    && Flags(paused, r.counters, active - todo)
  }

  lemma ProgressStep(counters: map<string, Counter>, samples: map<string, Reading>, readings: map<string, Reading>,
                     now: string -> Instant, active: set<string>, todo: set<string>, order: seq<string>,
                     r: RoundResult, paused: map<string, bool>, id: string)
    requires Progress(counters, samples, readings, now, active, todo, order, r, paused) && id in todo
    ensures id in r.counters && id in readings
    ensures var next := RoundNext(r, id, readings[id], now(id));
            Progress(counters, samples, readings, now, active, todo - {id}, order + [id], next,
                     paused[id := next.counters[id].paused])
  {
    RunRoundAppend(counters, samples, readings, now, order, id);
    EnumeratesStep(order, active, todo, id);
    FlagsStep(paused, r.counters, RoundNext(r, id, readings[id], now(id)).counters, active - todo, id);
  }

  // The loop over the active nodes, in some order, adding up what the store accepts.
  method SampleNodes(store: Store, active: set<string>, readings: map<string, Reading>, now: string -> Instant)
    returns (order: seq<string>, deltas: seq<Reading>, upload: int, download: int, paused: map<string, bool>)
    requires store.Valid() && active <= store.nodes.Keys && active <= readings.Keys && Readings(readings)
    modifies store`nodes, store`nodeSamples
    ensures store.Valid() && Enumerates(order, active)
    ensures SampledRound(old(store.nodes), old(store.nodeSamples), store.nodes, active, readings, now)
    ensures AcceptedDeltas(old(store.nodes), old(store.nodeSamples), order, deltas, readings, now)
    ensures upload == Sum(deltas).upload >= 0 && download == Sum(deltas).download >= 0
    ensures paused.Keys == active && forall id :: id in paused ==> paused[id] == store.nodes[id].paused
  {
    order, deltas, paused, upload, download := [], [], map[], 0, 0;
    ghost var counters, samples := store.nodes, store.nodeSamples;
    ghost var r := RoundResult(counters, samples, deltas);
    var todo := active;
    while todo != {}
      invariant store.Valid() && r == RoundResult(store.nodes, store.nodeSamples, deltas)
      invariant Progress(counters, samples, readings, now, active, todo, order, r, paused)
      invariant upload == Sum(deltas).upload >= 0 && download == Sum(deltas).download >= 0
      decreases todo
    {
      var id :| id in todo;
      ProgressStep(counters, samples, readings, now, active, todo, order, r, paused, id);
      var delta, flag := SampleOne(store, id, readings[id], now(id), deltas);
      SumAppend(deltas, delta);
      r := RoundNext(r, id, readings[id], now(id));
      upload, download := upload + delta.upload, download + delta.download;
      order, deltas, paused, todo := order + [id], deltas + [delta], paused[id := flag], todo - {id};
    }
    RoundDone(counters, samples, readings, now, order, active, r);
  }

  // ----- The project over whole runs

  // What happens to the store: rounds over the nodes, edits, pauses and resets of a node,
  // and the same for the project, whose quota edit samples it with no bytes.
  datatype Event =
    | Round(order: seq<string>, readings: map<string, Reading>, nows: string -> Instant, clock: Instant)
    | ResetNode(id: string, clock: Instant)
    | EditNode(id: string, quota: int, resetDay: int)
    | PauseNode(id: string, paused: bool)
    | EditProject(quota: int, resetDay: int, clock: Instant)
    | PauseProject(paused: bool)
    | ResetProject(clock: Instant)

  // The rows of the nodes.
  datatype Rows = Rows(nodes: map<string, Counter>, samples: map<string, Reading>)

  function RoundOf(w: Rows, e: Event): RoundResult
    requires e.Round?
  {
    RunRound(w.nodes, w.samples, e.readings, e.nows, e.order)
  }

  function NodesAfter(w: Rows, e: Event): map<string, Counter> {
    match e
    case Round(_, _, _, _) => RoundOf(w, e).counters
    case ResetNode(id, clock) => if id in w.nodes then w.nodes[id := Zeroed(w.nodes[id], clock)] else w.nodes
    case EditNode(id, quota, resetDay) =>
      if id in w.nodes && ValidQuota(quota, resetDay) then w.nodes[id := WithQuota(w.nodes[id], quota, resetDay)]
      else w.nodes
    case PauseNode(id, paused) => if id in w.nodes then w.nodes[id := WithPause(w.nodes[id], paused)] else w.nodes
    case _ => w.nodes
  }

  function SamplesAfter(w: Rows, e: Event): map<string, Reading> {
    match e
    case Round(_, _, _, _) => RoundOf(w, e).samples
    case ResetNode(id, _) => if id in w.nodes then w.samples - {id} else w.samples
    case _ => w.samples
  }

  // The rows after the first n events.
  function RowsAt(w: Rows, events: seq<Event>, n: nat): Rows
    requires n <= |events|
  {
    if n == 0 then w
    else
      var x := RowsAt(w, events, n - 1);
      Rows(NodesAfter(x, events[n - 1]), SamplesAfter(x, events[n - 1]))
  }

  // What the node samples of the k-th event accept.
  function AcceptedAt(w: Rows, events: seq<Event>, k: nat): seq<Reading>
    requires k < |events|
  {
    if events[k].Round? then RoundOf(RowsAt(w, events, k), events[k]).deltas else []
  }

  function ProjectAfter(project: Counter, e: Event, sum: Reading): Counter {
    match e
    case Round(_, _, _, clock) => Sampled(project, CurrentPeriod(clock, project.resetDay), sum.upload, sum.download)
    case EditProject(quota, resetDay, clock) =>
      if ValidQuota(quota, resetDay)
      then Sampled(WithQuota(project, quota, resetDay), CurrentPeriod(clock, resetDay), 0, 0)
      else project
    case PauseProject(paused) => WithPause(project, paused)
    case ResetProject(clock) => Zeroed(project, clock)
    case _ => project
  }

  // What each event of the run hands to the project: the deltas that its node samples accept.
  ghost predicate AcceptedBy(w: Rows, events: seq<Event>, accepted: seq<seq<Reading>>) {
    |accepted| == |events| && forall k :: 0 <= k < |events| ==> accepted[k] == AcceptedAt(w, events, k)
  }

  // The row of the project after the first n events: a round hands it the sum of the deltas.
  function ProjectAt(project: Counter, events: seq<Event>, accepted: seq<seq<Reading>>, n: nat): Counter
    requires n <= |events| == |accepted|
  {
    if n == 0 then project
    else ProjectAfter(ProjectAt(project, events, accepted, n - 1), events[n - 1], Sum(accepted[n - 1]))
  }

  // ----- What the history says

  // An edit that the panel takes.
  predicate TakenEdit(e: Event) {
    e.EditProject? && e.quota >= 0 && 1 <= e.resetDay <= 28
  }

  // The reset day and the quota that the last edit has set.
  function ResetDayAt(project: Counter, events: seq<Event>, n: nat): int
    requires n <= |events|
  {
    if n == 0 then project.resetDay
    else if TakenEdit(events[n - 1]) then events[n - 1].resetDay
    else ResetDayAt(project, events, n - 1)
  }

  function QuotaAt(project: Counter, events: seq<Event>, n: nat): int
    requires n <= |events|
  {
    if n == 0 then project.quota
    else if TakenEdit(events[n - 1]) then events[n - 1].quota
    else QuotaAt(project, events, n - 1)
  }

  // The billing period at the last event that looked at the clock of the project.
  function PeriodAt(project: Counter, events: seq<Event>, n: nat): Period
    requires n <= |events|
  {
    if n == 0 then project.period
    else
      match events[n - 1]
      case Round(_, _, _, clock) => Cycle(BillingPeriod(clock, ResetDayAt(project, events, n)))
      case EditProject(_, _, clock) =>
        if TakenEdit(events[n - 1]) then Cycle(BillingPeriod(clock, ResetDayAt(project, events, n)))
        else PeriodAt(project, events, n - 1)
      case ResetProject(clock) => Cycle(BillingPeriod(clock, ResetDayAt(project, events, n)))
      case _ => PeriodAt(project, events, n - 1)
  }

  // Where the totals of the project started: after the last reset, or with the event that
  // brought the last change of the period.
  function StartAt(project: Counter, events: seq<Event>, n: nat): (i: nat)
    requires n <= |events|
    ensures i <= n
  {
    if n == 0 then 0
    else if events[n - 1].ResetProject? then n
    else if PeriodAt(project, events, n) != PeriodAt(project, events, n - 1) then n - 1
    else StartAt(project, events, n - 1)
  }

  // The deltas accepted in the events from i to n, in order.
  function Joined(accepted: seq<seq<Reading>>, i: nat, n: nat): seq<Reading>
    requires i <= n <= |accepted|
  {
    if i == n then [] else Joined(accepted, i, n - 1) + accepted[n - 1]
  }

  // Whether a hand has paused the project.
  function ManualAt(manual: bool, events: seq<Event>, n: nat): bool
    requires n <= |events|
  {
    if n == 0 then manual
    else
      match events[n - 1]
      case PauseProject(paused) => paused
      case ResetProject(_) => false
      case _ => ManualAt(manual, events, n - 1)
  }

  lemma ProjectPeriod(project: Counter, e: Event, sum: Reading)
    ensures var c := ProjectAfter(project, e, sum);
            && c.resetDay == (if TakenEdit(e) then e.resetDay else project.resetDay)
            && c.quota == (if TakenEdit(e) then e.quota else project.quota)
            && c.period == (match e
                            case Round(_, _, _, clock) => Cycle(BillingPeriod(clock, c.resetDay))
                            case EditProject(_, _, clock) =>
                              if TakenEdit(e) then Cycle(BillingPeriod(clock, c.resetDay)) else project.period
                            case ResetProject(clock) => Cycle(BillingPeriod(clock, c.resetDay))
                            case _ => project.period)
  {}

  lemma {:induction false} PeriodIs(project: Counter, events: seq<Event>, accepted: seq<seq<Reading>>, n: nat)
    requires n <= |events| == |accepted|
    ensures ProjectAt(project, events, accepted, n).period == PeriodAt(project, events, n)
    ensures ProjectAt(project, events, accepted, n).resetDay == ResetDayAt(project, events, n)
    ensures ProjectAt(project, events, accepted, n).quota == QuotaAt(project, events, n)
  {
    if n > 0 {
      PeriodIs(project, events, accepted, n - 1);
      ProjectPeriod(ProjectAt(project, events, accepted, n - 1), events[n - 1], Sum(accepted[n - 1]));
    }
  }

  predicate Totals(c: Counter, deltas: seq<Reading>) {
    c.upload == Sum(deltas).upload && c.download == Sum(deltas).download
  }

  lemma SampledTotals(c: Counter, period: Period, before: seq<Reading>, deltas: seq<Reading>)
    requires Totals(c, before)
    ensures Totals(Sampled(c, period, Sum(deltas).upload, Sum(deltas).download),
                   (if c.period == period then before else []) + deltas)
  {
    SumConcat(before, deltas);
    assert [] + deltas == deltas;
  }

  // What is accepted since the start after one more event.
  function Carried(before: seq<Reading>, reset: bool, same: bool, deltas: seq<Reading>): seq<Reading> {
    if reset then [] else (if same then before else []) + deltas
  }

  lemma JoinedStep(project: Counter, events: seq<Event>, accepted: seq<seq<Reading>>, n: nat, same: bool)
    requires 0 < n <= |events| == |accepted|
    requires same <==> PeriodAt(project, events, n) == PeriodAt(project, events, n - 1)
    ensures Joined(accepted, StartAt(project, events, n), n)
         == Carried(Joined(accepted, StartAt(project, events, n - 1), n - 1), events[n - 1].ResetProject?, same,
                    accepted[n - 1])
  {}

  lemma StepTotals(project: Counter, e: Event, before: seq<Reading>, deltas: seq<Reading>, same: bool)
    requires Totals(project, before) && (!e.Round? ==> deltas == [])
    requires same <==> ProjectAfter(project, e, Sum(deltas)).period == project.period
    ensures Totals(ProjectAfter(project, e, Sum(deltas)), Carried(before, e.ResetProject?, same, deltas))
  {
    assert before + [] == before;
    match e
    case Round(_, _, _, clock) =>
      SampledTotals(project, CurrentPeriod(clock, project.resetDay), before, deltas);
    case EditProject(quota, resetDay, clock) =>
      SampledTotals(WithQuota(project, quota, resetDay), CurrentPeriod(clock, resetDay), before, []);
    case _ =>
  }

  lemma {:induction false} TotalsJoined(project: Counter, events: seq<Event>, accepted: seq<seq<Reading>>, n: nat)
    requires n <= |events| == |accepted| && project.upload == 0 && project.download == 0
    requires forall k :: 0 <= k < |events| && !events[k].Round? ==> accepted[k] == []
    ensures Totals(ProjectAt(project, events, accepted, n), Joined(accepted, StartAt(project, events, n), n))
  {
    if n > 0 {
      TotalsJoined(project, events, accepted, n - 1);
      PeriodIs(project, events, accepted, n - 1);
      PeriodIs(project, events, accepted, n);
      var same := PeriodAt(project, events, n) == PeriodAt(project, events, n - 1);
      JoinedStep(project, events, accepted, n, same);
      StepTotals(ProjectAt(project, events, accepted, n - 1), events[n - 1],
                 Joined(accepted, StartAt(project, events, n - 1), n - 1), accepted[n - 1], same);
    }
  }

  // In every run the project totals are the sum of all node deltas accepted in the rounds
  // since the start, the last reset or the last change of period, whatever happens to the
  // nodes in between.
  lemma ProjectConserves(project: Counter, w: Rows, events: seq<Event>, accepted: seq<seq<Reading>>, n: nat)
    requires n <= |events| && project.upload == 0 && project.download == 0 && AcceptedBy(w, events, accepted)
    ensures Totals(ProjectAt(project, events, accepted, n), Joined(accepted, StartAt(project, events, n), n))
  {
    TotalsJoined(project, events, accepted, n);
  }

  // Paused, and not by the quota.
  predicate ByHand(c: Counter) {
    c.paused && !c.pausedByQuota
  }

  lemma ProjectFlagsStep(project: Counter, manual: bool, e: Event, sum: Reading)
    requires ByHand(project) <==> manual
    ensures var c := ProjectAfter(project, e, sum);
            var after := if e.PauseProject? then e.paused else manual && !e.ResetProject?;
            && (ByHand(c) <==> after)
            && (e.Round? ==> (c.paused <==> after || (c.quota > 0 && c.upload + c.download >= c.quota)))
  {}

  // In every run the stored flags tell whether a hand has paused the project, and after
  // every round it is paused exactly when a hand or the quota in force says so.
  lemma {:induction false} ProjectFlags(
    project: Counter, manual: bool, events: seq<Event>, accepted: seq<seq<Reading>>, n: nat)
    requires n <= |events| == |accepted| && (ByHand(project) <==> manual)
    ensures var x, byHand, quota :=
              ProjectAt(project, events, accepted, n), ManualAt(manual, events, n), QuotaAt(project, events, n);
            && (ByHand(x) <==> byHand)
            && (n > 0 && events[n - 1].Round? ==>
                  (x.paused <==> byHand || (quota > 0 && x.upload + x.download >= quota)))
  {
    if n > 0 {
      ProjectFlags(project, manual, events, accepted, n - 1);
      PeriodIs(project, events, accepted, n);
      ProjectFlagsStep(ProjectAt(project, events, accepted, n - 1), ManualAt(manual, events, n - 1), events[n - 1],
                       Sum(accepted[n - 1]));
    }
  }

  // ----- A run in which the verdict of the project is not the edge of its flag

  const JULY20: Instant := Instant(2026, 7, 20, 0)
  const AUGUST1: Instant := Instant(2026, 8, 1, 0)

  // A round over that node at one moment.
  predicate RoundAt(e: Event, raw: Reading, now: Instant) {
    e.Round? && e.order == ["a"] && e.readings == map["a" := raw] && e.nows("a") == now && e.clock == now
  }

  // The project resets on the first, the node on the 15th. A baseline and a round of 1100
  // bytes in July reach the quota of 1000; in August the next round brings 1100 more.
  predicate TwoMonths(events: seq<Event>) {
    && |events| == 5 && events[0] == EditProject(1000, 1, JULY20) && events[1] == EditNode("a", 0, 15)
    && RoundAt(events[2], Reading(0, 0), JULY20) && RoundAt(events[3], Reading(900, 200), JULY20)
    && RoundAt(events[4], Reading(1500, 700), AUGUST1)
  }

  function NodeIn(period: Period, resetDay: int, upload: int, download: int): Counter {
    Counter(period, upload, download, 0, resetDay, false, false)
  }

  function ProjectIn(month: int, quota: int, upload: int, download: int, paused: bool): Counter {
    Counter(Cycle(Date(2026, month, 1)), upload, download, quota, 1, paused, paused)
  }

  lemma OneNodeRound(w: Rows, events: seq<Event>, k: nat, c: Counter, raw: Reading, now: Instant)
    requires k < |events| && RoundAt(events[k], raw, now) && RowsAt(w, events, k).nodes == map["a" := c]
    ensures var samples := RowsAt(w, events, k).samples;
            && AcceptedAt(w, events, k) == [NodeDeltasAt(c, samples, "a", raw, now)]
            && RowsAt(w, events, k + 1).nodes == map["a" := AfterNodeSample(c, Lookup(samples, "a"), raw, now)]
            && RowsAt(w, events, k + 1).samples == samples["a" := raw]
  {
    var x, e := RowsAt(w, events, k), events[k];
    var none: seq<string>, no: seq<Reading> := [], [];
    assert RunRound(x.nodes, x.samples, e.readings, e.nows, none) == RoundResult(x.nodes, x.samples, no);
    RunRoundAppend(x.nodes, x.samples, e.readings, e.nows, none, "a");
    assert none + ["a"] == e.order;
  }

  lemma OneDelta(delta: Reading)
    ensures Sum([delta]) == delta
  {
    var no: seq<Reading> := [];
    SumAppend(no, delta);
    assert no + [delta] == [delta];
  }

  lemma NodeMonths()
    ensures var july := Cycle(Date(2026, 7, 15));
            && AfterNodeSample(NodeIn(Month(2026, 7), 15, 0, 0), None, Reading(0, 0), JULY20) == NodeIn(july, 15, 0, 0)
            && AfterNodeSample(NodeIn(july, 15, 0, 0), Some(Reading(0, 0)), Reading(900, 200), JULY20)
            == NodeIn(july, 15, 900, 200)
  {}

  // The node counters before the round in August: the node is still in its period of July.
  lemma NodesOfTwoMonths(w: Rows, events: seq<Event>)
    requires w == Rows(map["a" := NodeIn(Month(2026, 7), 1, 0, 0)], map[]) && TwoMonths(events)
    ensures AcceptedAt(w, events, 2) == [Reading(0, 0)] && AcceptedAt(w, events, 3) == [Reading(900, 200)]
    ensures AcceptedAt(w, events, 4) == [Reading(600, 500)]
  {
    NodeMonths();
    assert RowsAt(w, events, 1) == w;
    assert RowsAt(w, events, 2) == Rows(map["a" := NodeIn(Month(2026, 7), 15, 0, 0)], map[]);
    OneNodeRound(w, events, 2, NodeIn(Month(2026, 7), 15, 0, 0), Reading(0, 0), JULY20);
    OneNodeRound(w, events, 3, NodeIn(Cycle(Date(2026, 7, 15)), 15, 0, 0), Reading(900, 200), JULY20);
    OneNodeRound(w, events, 4, NodeIn(Cycle(Date(2026, 7, 15)), 15, 900, 200), Reading(1500, 700), AUGUST1);
  }

  lemma ProjectMonths(events: seq<Event>)
    requires TwoMonths(events)
    ensures ProjectAfter(ProjectIn(7, 0, 0, 0, false), events[0], Reading(0, 0)) == ProjectIn(7, 1000, 0, 0, false)
    ensures ProjectAfter(ProjectIn(7, 1000, 0, 0, false), events[2], Reading(0, 0)) == ProjectIn(7, 1000, 0, 0, false)
  {}

  lemma {:induction false} ProjectRounds(events: seq<Event>)
    requires TwoMonths(events)
    ensures ProjectAfter(ProjectIn(7, 1000, 0, 0, false), events[3], Reading(900, 200))
            == ProjectIn(7, 1000, 900, 200, true)
    ensures ProjectAfter(ProjectIn(7, 1000, 900, 200, true), events[4], Reading(600, 500))
         == ProjectIn(8, 1000, 600, 500, true)
  {}

  // The rows of the project before the first event and after each event.
  ghost predicate ProjectRows(project: Counter, events: seq<Event>, accepted: seq<seq<Reading>>, rows: seq<Counter>) {
    && |events| == |accepted| && |rows| == |events| + 1
    && forall k :: 0 <= k < |rows| ==> rows[k] == ProjectAt(project, events, accepted, k)
  }

  lemma RowNext(project: Counter, events: seq<Event>, accepted: seq<seq<Reading>>, rows: seq<Counter>, k: nat,
                c: Counter, sum: Reading)
    requires ProjectRows(project, events, accepted, rows) && k < |events|
    requires rows[k] == c && Sum(accepted[k]) == sum
    ensures rows[k + 1] == ProjectAfter(c, events[k], sum)
  {}

  lemma {:induction false} TwoRows(project: Counter, events: seq<Event>, accepted: seq<seq<Reading>>,
                                   rows: seq<Counter>, k: nat, a: Counter, first: Reading, b: Counter,
                                   second: Reading, c: Counter)
    requires ProjectRows(project, events, accepted, rows) && k + 1 < |events|
    requires rows[k] == a && Sum(accepted[k]) == first && Sum(accepted[k + 1]) == second
    requires ProjectAfter(a, events[k], first) == b && ProjectAfter(b, events[k + 1], second) == c
    ensures rows[k + 1] == b && rows[k + 2] == c
  {
    RowNext(project, events, accepted, rows, k, a, first);
    RowNext(project, events, accepted, rows, k + 1, b, second);
  }

  lemma RowsUntilJuly(events: seq<Event>, accepted: seq<seq<Reading>>, rows: seq<Counter>, project: Counter)
    requires TwoMonths(events) && ProjectRows(project, events, accepted, rows)
             && project == ProjectIn(7, 0, 0, 0, false)
    requires accepted[0] == accepted[1] == [] && Sum(accepted[2]) == Reading(0, 0)
    ensures rows[3] == ProjectIn(7, 1000, 0, 0, false)
  {
    var c := ProjectIn(7, 1000, 0, 0, false);
    ProjectMonths(events);
    RowNext(project, events, accepted, rows, 0, project, Reading(0, 0));
    RowNext(project, events, accepted, rows, 1, c, Reading(0, 0));
    RowNext(project, events, accepted, rows, 2, c, Reading(0, 0));
  }

  lemma {:induction false} RowsOfRounds(events: seq<Event>, accepted: seq<seq<Reading>>, rows: seq<Counter>,
                                        project: Counter)
    requires TwoMonths(events) && ProjectRows(project, events, accepted, rows)
    requires rows[3] == ProjectIn(7, 1000, 0, 0, false)
    requires Sum(accepted[3]) == Reading(900, 200) && Sum(accepted[4]) == Reading(600, 500)
    ensures rows[4] == ProjectIn(7, 1000, 900, 200, true) && rows[5] == ProjectIn(8, 1000, 600, 500, true)
  {
    ProjectRounds(events);
    TwoRows(project, events, accepted, rows, 3, ProjectIn(7, 1000, 0, 0, false), Reading(900, 200),
            ProjectIn(7, 1000, 900, 200, true), Reading(600, 500), ProjectIn(8, 1000, 600, 500, true));
  }

  // From a new store with one node: the project sampler reports a pause of a project that
  // was paused and stays paused.
  lemma ProjectVerdictNotEdge(w: Rows, events: seq<Event>, accepted: seq<seq<Reading>>, rows: seq<Counter>)
    requires w == Rows(map["a" := NodeIn(Month(2026, 7), 1, 0, 0)], map[]) && TwoMonths(events)
    requires AcceptedBy(w, events, accepted) && ProjectRows(ProjectIn(7, 0, 0, 0, false), events, accepted, rows)
    ensures rows[4].paused && rows[5].paused && VerdictOf(rows[4], rows[5]) == Pause
  {
    NodesOfTwoMonths(w, events);
    OneDelta(Reading(0, 0));
    OneDelta(Reading(900, 200));
    OneDelta(Reading(600, 500));
    RowsUntilJuly(events, accepted, rows, ProjectIn(7, 0, 0, 0, false));
    RowsOfRounds(events, accepted, rows, ProjectIn(7, 0, 0, 0, false));
  }
}
