/** Whole runs of a node's counter against the bytes that really passed. */
module NodeMetering {
  import opened Wrappers
  import opened Seqs
  import opened Billing
  import opened Counters
  import opened Traffic

  // ----- The accounting rules of one direction

  // The counter of one rule: what the last sample has read of it, and what came later.
  datatype RuleCount = RuleCount(seen: nat, more: nat)

  function Seen(rules: seq<RuleCount>): nat {
    if |rules| == 0 then 0 else Seen(rules[..|rules| - 1]) + rules[|rules| - 1].seen
  }

  function More(rules: seq<RuleCount>): nat {
    if |rules| == 0 then 0 else More(rules[..|rules| - 1]) + rules[|rules| - 1].more
  }

  function AllSeen(rules: seq<RuleCount>): (r: seq<RuleCount>) {
    if |rules| == 0 then []
    else AllSeen(rules[..|rules| - 1]) + [RuleCount(rules[|rules| - 1].seen + rules[|rules| - 1].more, 0)]
  }

  function WithMore(rules: seq<RuleCount>, i: nat, bytes: nat): seq<RuleCount>
    requires i < |rules|
  {
    rules[i := RuleCount(rules[i].seen, rules[i].more + bytes)]
  }

  function Dropped(rules: seq<RuleCount>, i: nat): seq<RuleCount>
    requires i < |rules|
  {
    rules[..i] + rules[i + 1..]
  }

  lemma CountAppend(rules: seq<RuleCount>, r: RuleCount)
    ensures Seen(rules + [r]) == Seen(rules) + r.seen && More(rules + [r]) == More(rules) + r.more
  {
    assert (rules + [r])[..|rules|] == rules;
  }

  lemma {:induction false} CountConcat(left: seq<RuleCount>, right: seq<RuleCount>)
    ensures Seen(left + right) == Seen(left) + Seen(right) && More(left + right) == More(left) + More(right)
    decreases |right|
  {
    if |right| == 0 {
      assert left + right == left;
    } else {
      var n := |right| - 1;
      CountConcat(left, right[..n]);
      CountAppend(left + right[..n], right[n]);
      assert left + right == left + right[..n] + [right[n]];
    }
  }

  lemma CountMiddle(left: seq<RuleCount>, r: RuleCount, right: seq<RuleCount>)
    ensures Seen(left + [r] + right) == Seen(left + right) + r.seen
    ensures More(left + [r] + right) == More(left + right) + r.more
  {
    CountConcat(left, right);
    CountConcat(left + [r], right);
    CountAppend(left, r);
  }

  lemma CountDropped(rules: seq<RuleCount>, i: nat)
    requires i < |rules|
    ensures Seen(rules) == Seen(Dropped(rules, i)) + rules[i].seen
    ensures More(rules) == More(Dropped(rules, i)) + rules[i].more
  {
    Reassemble(rules, i);
    CountMiddle(rules[..i], rules[i], rules[i + 1..]);
  }

  lemma CountWithMore(rules: seq<RuleCount>, i: nat, bytes: nat)
    requires i < |rules|
    ensures Seen(WithMore(rules, i, bytes)) == Seen(rules)
    ensures More(WithMore(rules, i, bytes)) == More(rules) + bytes
  {
    CountDropped(rules, i);
    CountDropped(WithMore(rules, i, bytes), i);
    assert Dropped(WithMore(rules, i, bytes), i) == Dropped(rules, i);
  }

  lemma {:induction false} CountAllSeen(rules: seq<RuleCount>)
    ensures Seen(AllSeen(rules)) == Seen(rules) + More(rules) && More(AllSeen(rules)) == 0
    decreases |rules|
  {
    if |rules| > 0 {
      var n := |rules| - 1;
      CountAllSeen(rules[..n]);
      CountAppend(AllSeen(rules[..n]), RuleCount(rules[n].seen + rules[n].more, 0));
    }
  }

  // ----- One direction of a node

  // Bytes pass and count in the rule they match, or nowhere; a rule is added, or goes with
  // its counter, as when an edit of the mode takes a network away; or all rules go, as when
  // the table is flushed or the port of the node changes.
  datatype Change = Pass(rule: nat, bytes: nat) | AddRule | RemoveRule(rule: nat) | EmptyRules

  // passed is what has really gone through; baseline and last are its values when the
  // current totals started and when the last sample was taken. escaped is what has passed
  // since the last sample without showing in a rule that is still there.
  datatype Meter = Meter(rules: seq<RuleCount>, passed: nat, baseline: nat, last: nat, escaped: nat, lossy: bool)
  {
    // What the parser reads: the sum over the rules.
    function Raw(): nat {
      Seen(rules) + More(rules)
    }

    function After(c: Change): Meter {
      match c
      case Pass(i, bytes) =>
        if i < |rules| then this.(rules := WithMore(rules, i, bytes), passed := passed + bytes)
        else this.(passed := passed + bytes, escaped := escaped + bytes, lossy := true)
      case AddRule => this.(rules := rules + [RuleCount(0, 0)])
      case RemoveRule(i) =>
        if i < |rules| then this.(rules := Dropped(rules, i), escaped := escaped + rules[i].more, lossy := true)
        else this
      case EmptyRules => this.(rules := [], escaped := escaped + More(rules), lossy := true)
    }

    function Read(anew: bool): Meter {
      Meter(AllSeen(rules), passed, if anew then passed else baseline, passed, 0, lossy && !anew)
    }

    // The raw value has fallen, so that it counts in full, and it contains more that was
    // counted before than has escaped since.
    predicate Fooled(previous: int) {
      Raw() < previous && escaped < Seen(rules)
    }
  }

  // The books of the environment: every byte since the last sample shows in a rule or has
  // escaped, and the rules do not show more of the last reading than was read.
  predicate MeterShape(m: Meter, previous: Option<int>) {
    && m.baseline <= m.last <= m.passed
    && More(m.rules) + m.escaped == m.passed - m.last
    && (previous.Some? ==> Seen(m.rules) <= previous.value)
    && (!m.lossy ==> m.escaped == 0 && (previous.Some? ==> Seen(m.rules) == previous.value))
  }

  // The totals never exceed the true bytes; without losses they equal them.
  predicate MeterHonest(m: Meter, previous: Option<int>, total: int) {
    && (previous.None? ==> total == 0)
    && (previous.Some? ==> total <= m.last - m.baseline && (!m.lossy ==> total == m.last - m.baseline))
  }

  // A sample accepts at most the bytes that passed since the last one, if and only if it
  // is not fooled.
  lemma SampleExact(m: Meter, previous: int)
    requires MeterShape(m, Some(previous))
    ensures NodeDelta(previous, m.Raw()) <= m.passed - m.last <==> !m.Fooled(previous)
  {}

  lemma ReadShape(m: Meter, previous: Option<int>, anew: bool)
    requires MeterShape(m, previous)
    ensures MeterShape(m.Read(anew), Some(m.Raw()))
  {
    CountAllSeen(m.rules);
  }

  lemma ReadHonest(m: Meter, previous: Option<int>, total: int, anew: bool)
    requires MeterShape(m, previous) && MeterHonest(m, previous, total)
    requires if previous.None? then anew else anew || !m.Fooled(previous.value)
    ensures MeterHonest(m.Read(anew), Some(m.Raw()), if anew then 0 else total + NodeDelta(previous.value, m.Raw()))
  {
    if !anew {
      SampleExact(m, previous.value);
    }
  }

  // ----- A node

  datatype Direction = Up | Down

  // The row and the reading, and what the environment knows: the bytes, who paused, the
  // quota and the reset day in force, and the billing period of the last sample or reset.
  datatype NodeWorld = NodeWorld(
    counter: Counter, previous: Option<Reading>, up: Meter, down: Meter,
    manual: bool, quota: int, resetDay: int, period: Period)
  {
    function On(d: Direction): Meter {
      if d == Up then up else down
    }

    function With(d: Direction, m: Meter): NodeWorld {
      if d == Up then this.(up := m) else this.(down := m)
    }

    function Raw(): Reading {
      Reading(up.Raw(), down.Raw())
    }

    // The next sample starts new totals and adds nothing.
    predicate Anew(now: Instant) {
      previous.None? || period != Cycle(BillingPeriod(now, resetDay))
    }
  }

  datatype NodeEvent =
    | Rules(direction: Direction, change: Change)
    | SampleNode(now: Instant)
    | PauseByHand(paused: bool)
    | ResetNode(clock: Instant)
    | QuotaNode(quota: int, resetDay: int)

  function NodeStep(w: NodeWorld, e: NodeEvent): NodeWorld {
    match e
    case Rules(d, c) => w.With(d, w.On(d).After(c))
    case SampleNode(now) =>
      w.(counter := AfterNodeSample(w.counter, w.previous, w.Raw(), now), previous := Some(w.Raw()),
         up := w.up.Read(w.Anew(now)), down := w.down.Read(w.Anew(now)),
         period := Cycle(BillingPeriod(now, w.resetDay)))
    case PauseByHand(paused) => w.(counter := WithPause(w.counter, paused), manual := paused)
    case ResetNode(clock) =>
      w.(counter := Zeroed(w.counter, clock), previous := None, manual := false,
         period := Cycle(BillingPeriod(clock, w.resetDay)))
    case QuotaNode(quota, resetDay) =>
      if quota >= 0 && 1 <= resetDay <= 28
      then w.(counter := WithQuota(w.counter, quota, resetDay), quota := quota, resetDay := resetDay)
      else w
  }

  function NodeRun(w: NodeWorld, events: seq<NodeEvent>): NodeWorld {
    if |events| == 0 then w
    else NodeStep(NodeRun(w, events[..|events| - 1]), events[|events| - 1])
  }

  lemma NodeRunAppend(w: NodeWorld, events: seq<NodeEvent>, e: NodeEvent)
    ensures NodeRun(w, events + [e]) == NodeStep(NodeRun(w, events), e)
  {
    assert (events + [e])[..|events|] == events;
  }

  predicate FreshMeter(m: Meter) {
    m.rules == [] && m.baseline == m.last == m.passed && m.escaped == 0 && !m.lossy
  }

  // A counter row without a reading, a rule or a byte.
  predicate FreshNode(w: NodeWorld) {
    && w.counter.Valid() && w.counter.Total() == 0 && !w.counter.paused
    && w.previous.None? && !w.manual && FreshMeter(w.up) && FreshMeter(w.down)
    && w.quota == w.counter.quota && w.resetDay == w.counter.resetDay && w.period == w.counter.period
  }

  function UploadOf(previous: Option<Reading>): Option<int> {
    if previous.Some? then Some(previous.value.upload) else None
  }

  function DownloadOf(previous: Option<Reading>): Option<int> {
    if previous.Some? then Some(previous.value.download) else None
  }

  // ----- What holds in every run

  predicate NodeShape(w: NodeWorld) {
    MeterShape(w.up, UploadOf(w.previous)) && MeterShape(w.down, DownloadOf(w.previous))
  }

  // The row agrees with what the environment knows besides the bytes.
  predicate NodeFlags(w: NodeWorld) {
    && w.counter.Valid() && (w.counter.paused && !w.counter.pausedByQuota <==> w.manual)
    && w.counter.quota == w.quota && w.counter.resetDay == w.resetDay && w.counter.period == w.period
  }

  lemma ChangeShape(m: Meter, previous: Option<int>, c: Change)
    requires MeterShape(m, previous)
    ensures MeterShape(m.After(c), previous)
  {
    match c
    case Pass(i, bytes) =>
      if i < |m.rules| {
        CountWithMore(m.rules, i, bytes);
      }
    case AddRule => CountAppend(m.rules, RuleCount(0, 0));
    case RemoveRule(i) =>
      if i < |m.rules| {
        CountDropped(m.rules, i);
      }
    case EmptyRules =>
  }

  lemma NodeStepShape(w: NodeWorld, e: NodeEvent)
    requires NodeShape(w)
    ensures NodeShape(NodeStep(w, e))
  {
    match e
    case Rules(d, c) =>
      ChangeShape(w.On(d), if d == Up then UploadOf(w.previous) else DownloadOf(w.previous), c);
    case SampleNode(now) =>
      ReadShape(w.up, UploadOf(w.previous), w.Anew(now));
      ReadShape(w.down, DownloadOf(w.previous), w.Anew(now));
    case _ =>
  }

  lemma SampleNonnegative(c: Counter, previous: Option<Reading>, raw: Reading, now: Instant)
    requires c.Valid() && raw.upload >= 0 && raw.download >= 0
    ensures AfterNodeSample(c, previous, raw, now).Valid()
    ensures AfterNodeSample(c, previous, raw, now).ManuallyPaused() <==> c.ManuallyPaused()
  {}

  lemma NodeStepFlags(w: NodeWorld, e: NodeEvent)
    requires NodeFlags(w)
    ensures NodeFlags(NodeStep(w, e))
  {
    if e.SampleNode? {
      SampleNonnegative(w.counter, w.previous, w.Raw(), e.now);
    }
  }

  lemma {:induction false} NodeRunFlags(w: NodeWorld, events: seq<NodeEvent>)
    requires FreshNode(w)
    ensures NodeFlags(NodeRun(w, events))
    decreases |events|
  {
    if |events| > 0 {
      NodeRunFlags(w, events[..|events| - 1]);
      NodeStepFlags(NodeRun(w, events[..|events| - 1]), events[|events| - 1]);
    }
  }

  lemma {:induction false} NodeRunShape(w: NodeWorld, events: seq<NodeEvent>)
    requires FreshNode(w)
    ensures NodeShape(NodeRun(w, events))
    decreases |events|
  {
    if |events| > 0 {
      NodeRunShape(w, events[..|events| - 1]);
      NodeStepShape(NodeRun(w, events[..|events| - 1]), events[|events| - 1]);
    }
  }

  // In every state that a run reaches, the deltas that a sample accepts are at most the
  // bytes that passed since the last sample, if and only if it starts new totals or is
  // not fooled. They are these bytes when no rule went and no byte missed the rules.
  lemma NodeSampleExact(w: NodeWorld, events: seq<NodeEvent>, now: Instant)
    requires FreshNode(w)
    ensures var x := NodeRun(w, events);
            var delta := NodeDeltas(x.counter, x.previous, x.Raw(), CurrentPeriod(now, x.counter.resetDay));
            && (delta.upload <= x.up.passed - x.up.last
                <==> x.Anew(now) || !x.up.Fooled(x.previous.value.upload))
            && (delta.download <= x.down.passed - x.down.last
                <==> x.Anew(now) || !x.down.Fooled(x.previous.value.download))
            && (x.Anew(now) ==> delta == Reading(0, 0))
            && (!x.Anew(now) && !x.up.lossy ==> delta.upload == x.up.passed - x.up.last)
            && (!x.Anew(now) && !x.down.lossy ==> delta.download == x.down.passed - x.down.last)
  {
    NodeRunShape(w, events);
    NodeRunFlags(w, events);
    var x := NodeRun(w, events);
    if !x.Anew(now) {
      SampleExact(x.up, x.previous.value.upload);
      SampleExact(x.down, x.previous.value.download);
    }
  }

  // ----- Totals over whole runs

  predicate Misled(w: NodeWorld, e: NodeEvent) {
    e.SampleNode? && !w.Anew(e.now)
    && (w.up.Fooled(w.previous.value.upload) || w.down.Fooled(w.previous.value.download))
  }

  predicate NeverMisled(w: NodeWorld, events: seq<NodeEvent>) {
    |events| > 0 ==>
      NeverMisled(w, events[..|events| - 1])
      && !Misled(NodeRun(w, events[..|events| - 1]), events[|events| - 1])
  }

  predicate NodeHonest(w: NodeWorld) {
    && MeterHonest(w.up, UploadOf(w.previous), w.counter.upload)
    && MeterHonest(w.down, DownloadOf(w.previous), w.counter.download)
  }

  lemma SampleHonest(w: NodeWorld, now: Instant)
    requires NodeShape(w) && NodeFlags(w) && NodeHonest(w) && !Misled(w, SampleNode(now))
    ensures NodeHonest(NodeStep(w, SampleNode(now)))
  {
    ReadHonest(w.up, UploadOf(w.previous), w.counter.upload, w.Anew(now));
    ReadHonest(w.down, DownloadOf(w.previous), w.counter.download, w.Anew(now));
  }

  lemma ChangeHonest(m: Meter, previous: Option<int>, total: int, c: Change)
    requires MeterHonest(m, previous, total)
    ensures MeterHonest(m.After(c), previous, total)
  {}

  lemma NodeStepHonest(w: NodeWorld, e: NodeEvent)
    requires NodeShape(w) && NodeFlags(w) && NodeHonest(w) && !Misled(w, e)
    ensures NodeHonest(NodeStep(w, e))
  {
    match e
    case Rules(Up, c) => ChangeHonest(w.up, UploadOf(w.previous), w.counter.upload, c);
    case Rules(Down, c) => ChangeHonest(w.down, DownloadOf(w.previous), w.counter.download, c);
    case SampleNode(now) => SampleHonest(w, now);
    case _ =>
  }

  lemma {:induction false} NodeRunHonest(w: NodeWorld, events: seq<NodeEvent>)
    requires FreshNode(w) && NeverMisled(w, events)
    ensures NodeHonest(NodeRun(w, events))
    decreases |events|
  {
    if |events| > 0 {
      var n := |events| - 1;
      NodeRunHonest(w, events[..n]);
      NodeRunShape(w, events[..n]);
      NodeRunFlags(w, events[..n]);
      NodeStepHonest(NodeRun(w, events[..n]), events[n]);
    }
  }

  // In every run in which no sample is fooled, the totals never exceed the bytes that
  // passed since their baseline; they equal the bytes up to the last sample when since the
  // baseline no rule went and no byte missed the rules.
  lemma NodeNeverOvercounts(w: NodeWorld, events: seq<NodeEvent>)
    requires FreshNode(w) && NeverMisled(w, events)
    ensures var x := NodeRun(w, events);
            && x.counter.upload <= x.up.passed - x.up.baseline
            && x.counter.download <= x.down.passed - x.down.baseline
            && (x.previous.Some? && !x.up.lossy ==> x.counter.upload == x.up.last - x.up.baseline)
            && (x.previous.Some? && !x.down.lossy ==> x.counter.download == x.down.last - x.down.baseline)
  {
    NodeRunShape(w, events);
    NodeRunHonest(w, events);
  }

  // ----- Counters that restart as a whole

  // Either all that was read is still there, or nothing of it.
  predicate AllOrNone(m: Meter, previous: Option<int>) {
    previous.Some? ==> Seen(m.rules) == previous.value || Seen(m.rules) == 0
  }

  lemma AllOrNoneChange(m: Meter, previous: Option<int>, c: Change)
    requires AllOrNone(m, previous) && !c.RemoveRule?
    ensures AllOrNone(m.After(c), previous)
  {
    CountAppend(m.rules, RuleCount(0, 0));
    if c.Pass? && c.rule < |m.rules| {
      CountWithMore(m.rules, c.rule, c.bytes);
    }
  }

  lemma AllOrNoneRead(m: Meter, anew: bool)
    ensures AllOrNone(m.Read(anew), Some(m.Raw()))
  {
    CountAllSeen(m.rules);
  }

  predicate RestartsOnly(events: seq<NodeEvent>) {
    forall k :: 0 <= k < |events| ==> !IsRemoval(events[k])
  }

  predicate IsRemoval(e: NodeEvent) {
    e.Rules? && e.change.RemoveRule?
  }

  predicate NodeWhole(w: NodeWorld) {
    AllOrNone(w.up, UploadOf(w.previous)) && AllOrNone(w.down, DownloadOf(w.previous))
  }

  lemma NodeStepWhole(w: NodeWorld, e: NodeEvent)
    requires NodeWhole(w) && !IsRemoval(e)
    ensures NodeWhole(NodeStep(w, e)) && !Misled(w, e)
  {
    match e
    case Rules(Up, c) => AllOrNoneChange(w.up, UploadOf(w.previous), c);
    case Rules(Down, c) => AllOrNoneChange(w.down, DownloadOf(w.previous), c);
    case SampleNode(now) =>
      AllOrNoneRead(w.up, w.Anew(now));
      AllOrNoneRead(w.down, w.Anew(now));
    case _ =>
  }

  lemma {:induction false} RestartsKeepWhole(w: NodeWorld, events: seq<NodeEvent>)
    requires FreshNode(w) && RestartsOnly(events)
    ensures NodeWhole(NodeRun(w, events)) && NeverMisled(w, events)
    decreases |events|
  {
    if |events| > 0 {
      RestartsKeepWhole(w, events[..|events| - 1]);
      NodeStepWhole(NodeRun(w, events[..|events| - 1]), events[|events| - 1]);
    }
  }

  // Rules that are only ever emptied together, as by a restart, never fool a sample.
  lemma RestartNeverOvercounts(w: NodeWorld, events: seq<NodeEvent>)
    requires FreshNode(w) && RestartsOnly(events)
    ensures var x := NodeRun(w, events);
            x.counter.upload <= x.up.passed - x.up.baseline && x.counter.download <= x.down.passed - x.down.baseline
  {
    RestartsKeepWhole(w, events);
    NodeNeverOvercounts(w, events);
  }

  // ----- A run that overcounts

  function TwoRules(): seq<NodeEvent> {
    [Rules(Up, AddRule)] + [Rules(Up, AddRule)] + [Rules(Up, Pass(0, 100))] + [Rules(Up, Pass(1, 200))]
  }

  // Two rules count 100 and 200 bytes and are sampled; then the second one is removed, as
  // by an edit of the mode from both networks to one, and the node is sampled again.
  function Removal(now: Instant): seq<NodeEvent> {
    TwoRules() + [SampleNode(now)] + [Rules(Up, RemoveRule(1))] + [SampleNode(now)]
  }

  // The seven steps leave one rule with the 100 bytes of the first reading.
  lemma RemovalMeter(m: Meter)
    requires FreshMeter(m)
    ensures var four := m.After(AddRule).After(AddRule).After(Pass(0, 100)).After(Pass(1, 200));
            && four.rules == [RuleCount(0, 100), RuleCount(0, 200)] && four.Raw() == 300
            && four.passed == m.passed + 300
            && var six := four.Read(true).After(RemoveRule(1));
               six.rules == [RuleCount(100, 0)] && six.Raw() == 100 && six.Fooled(300)
               && six.passed == six.baseline == six.last == m.passed + 300
  {
    var none: seq<RuleCount> := [];
    CountAppend(none, RuleCount(0, 100));
    CountAppend(none + [RuleCount(0, 100)], RuleCount(0, 200));
    assert none + [RuleCount(0, 100)] + [RuleCount(0, 200)] == [RuleCount(0, 100), RuleCount(0, 200)];
    var four := m.After(AddRule).After(AddRule).After(Pass(0, 100)).After(Pass(1, 200));
    assert four.rules == [RuleCount(0, 100), RuleCount(0, 200)];
    assert four.rules[..1] == [RuleCount(0, 100)] && four.rules[..1][..0] == [];
    assert AllSeen(four.rules[..1]) == [RuleCount(100, 0)];
    assert AllSeen(four.rules) == [RuleCount(100, 0), RuleCount(200, 0)];
    CountAppend(none, RuleCount(100, 0));
    assert none + [RuleCount(100, 0)] == [RuleCount(100, 0)];
  }

  lemma TwoRulesRun(w: NodeWorld)
    ensures NodeRun(w, TwoRules())
         == w.(up := w.up.After(AddRule).After(AddRule).After(Pass(0, 100)).After(Pass(1, 200)))
  {
    var one := [Rules(Up, AddRule)];
    var two := one + [Rules(Up, AddRule)];
    var three := two + [Rules(Up, Pass(0, 100))];
    NodeRunAppend(w, [], Rules(Up, AddRule));
    assert [] + [Rules(Up, AddRule)] == one;
    NodeRunAppend(w, one, Rules(Up, AddRule));
    NodeRunAppend(w, two, Rules(Up, Pass(0, 100)));
    NodeRunAppend(w, three, Rules(Up, Pass(1, 200)));
  }

  // Two samples in one period, of which the second is fooled.
  lemma RemovalSamples(w: NodeWorld, now: Instant)
    requires w.previous.None? && w.counter.upload == 0 && w.up.Raw() == 300
    requires var m := w.up.Read(true).After(RemoveRule(1)); m.Raw() == 100 && m.passed == m.baseline
    ensures var x := NodeStep(w, SampleNode(now));
            var z := NodeStep(NodeStep(x, Rules(Up, RemoveRule(1))), SampleNode(now));
            z.counter.upload == 100 && z.up.passed == z.up.baseline
  {
    var x := NodeStep(w, SampleNode(now));
    assert x.counter.upload == 0 && x.counter.period == CurrentPeriod(now, x.counter.resetDay);
    assert x.up == w.up.Read(true) && x.previous == Some(Reading(300, w.down.Raw()));
    var y := NodeStep(x, Rules(Up, RemoveRule(1)));
    assert y.counter == x.counter && y.previous == x.previous && y.up.Raw() == 100;
    assert !y.Anew(now);
  }

  // From every fresh node this run counts 100 bytes although none has passed since the
  // totals started: its last sample is fooled.
  lemma RemovalOvercounts(w: NodeWorld, now: Instant)
    requires FreshNode(w)
    ensures var x := NodeRun(w, Removal(now));
            x.counter.upload == 100 && x.up.passed == x.up.baseline
  {
    TwoRulesRun(w);
    RemovalMeter(w.up);
    var four := TwoRules();
    NodeRunAppend(w, four, SampleNode(now));
    NodeRunAppend(w, four + [SampleNode(now)], Rules(Up, RemoveRule(1)));
    NodeRunAppend(w, four + [SampleNode(now)] + [Rules(Up, RemoveRule(1))], SampleNode(now));
    RemovalSamples(NodeRun(w, four), now);
  }

  // ----- Flags

  // In every run the stored flags tell whether a hand has paused the node, and right after
  // a sample the node is paused exactly when a hand or the quota says so.
  lemma PausedAfterSample(w: NodeWorld, events: seq<NodeEvent>, now: Instant)
    requires FreshNode(w)
    ensures var before := NodeRun(w, events);
            var after := NodeStep(before, SampleNode(now));
            var total := after.counter.upload + after.counter.download;
            && (before.counter.paused && !before.counter.pausedByQuota <==> before.manual)
            && after.manual == before.manual && after.quota == before.quota
            && (after.counter.paused <==> after.manual || (after.quota > 0 && total >= after.quota))
  {
    NodeRunFlags(w, events);
    SampledFlagsAfter(NodeRun(w, events), now);
  }

  lemma SampledFlagsAfter(w: NodeWorld, now: Instant)
    requires NodeFlags(w)
    ensures var after := NodeStep(w, SampleNode(now)).counter;
            after.paused <==> w.manual || (w.quota > 0 && after.upload + after.download >= w.quota)
  {}

  function VerdictOfSample(w: NodeWorld, now: Instant): Verdict {
    VerdictOf(w.counter, NodeStep(w, SampleNode(now)).counter)
  }

  // What an observer of the verdicts, the manual actions and the resets believes.
  function Believed(flag: bool, w: NodeWorld, e: NodeEvent): bool {
    match e
    case SampleNode(now) =>
      (match VerdictOfSample(w, now)
       case Unchanged => flag
       case Pause => true
       case Resume => false)
    case PauseByHand(paused) => paused
    case ResetNode(_) => false
    case _ => flag
  }

  function Replay(w: NodeWorld, events: seq<NodeEvent>): bool {
    if |events| == 0 then w.counter.paused
    else
      var n := |events| - 1;
      Believed(Replay(w, events[..n]), NodeRun(w, events[..n]), events[n])
  }

  lemma BeliefStep(w: NodeWorld, e: NodeEvent)
    requires w.counter.Valid()
    ensures Believed(w.counter.paused, w, e) == NodeStep(w, e).counter.paused
  {
    if e.SampleNode? {
      NodeVerdictIsEdge(w.counter, w.previous, w.Raw(), CurrentPeriod(e.now, w.counter.resetDay));
    }
  }

  // Verdicts, manual actions and resets together reconstruct the paused flag.
  lemma {:induction false} ReplayReconstructs(w: NodeWorld, events: seq<NodeEvent>)
    requires FreshNode(w)
    ensures Replay(w, events) == NodeRun(w, events).counter.paused
    decreases |events|
  {
    if |events| > 0 {
      var n := |events| - 1;
      ReplayReconstructs(w, events[..n]);
      NodeRunFlags(w, events[..n]);
      BeliefStep(NodeRun(w, events[..n]), events[n]);
    }
  }
}
