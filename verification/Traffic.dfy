/** The durable traffic store: node, user and project counters. */
module Traffic {
  import opened Wrappers
  import opened Billing
  import opened Counters

  datatype StoreError = NegativeBytes | InvalidQuota | NoRow | RowExists

  function NewUser(now: Instant): Counter {
    Counter(CurrentPeriod(now, 1), 0, 0, 0, 1, false, false)
  }

  // A new quota for a user decides about the pause at once.
  function WithUserQuota(c: Counter, quota: int, resetDay: int): Counter {
    var edited := c.(quota := quota, resetDay := resetDay);
    edited.(paused := edited.OverQuota(), pausedByQuota := edited.OverQuota())
  }

  function WithQuota(c: Counter, quota: int, resetDay: int): Counter {
    c.(quota := quota, resetDay := resetDay)
  }

  function WithPause(c: Counter, paused: bool): Counter {
    c.(paused := paused, pausedByQuota := false)
  }

  function Zeroed(c: Counter, now: Instant): Counter {
    c.(period := CurrentPeriod(now, c.resetDay), upload := 0, download := 0, paused := false, pausedByQuota := false)
  }

  function AfterNodeSample(c: Counter, previous: Option<Reading>, raw: Reading, now: Instant): Counter {
    var period := CurrentPeriod(now, c.resetDay);
    var delta := NodeDeltas(c, previous, raw, period);
    Sampled(c, period, delta.upload, delta.download)
  }

  function AfterUserSample(c: Counter, previous: Option<Reading>, raw: Reading, now: Instant): Counter {
    var period := CurrentPeriod(now, c.resetDay);
    var delta := UserDeltas(c, previous, raw, period);
    Sampled(c, period, delta.upload, delta.download)
  }

  // The deltas that a sample of the node at this moment accepts.
  function NodeDeltasAt(c: Counter, samples: map<string, Reading>, id: string, raw: Reading, now: Instant): Reading {
    NodeDeltas(c, Lookup(samples, id), raw, CurrentPeriod(now, c.resetDay))
  }

  function Lookup<V>(rows: map<string, V>, id: string): Option<V> {
    if id in rows then Some(rows[id]) else None
  }

  predicate ValidQuota(quota: int, resetDay: int) {
    quota >= 0 && 1 <= resetDay <= 28
  }

  predicate AllValid(rows: map<string, Counter>) {
    forall id :: id in rows ==> rows[id].Valid()
  }

  predicate Readings(rows: map<string, Reading>) {
    forall id :: id in rows ==> rows[id].upload >= 0 && rows[id].download >= 0
  }

  class Store {
    var nodes: map<string, Counter>
    var nodeSamples: map<string, Reading>
    var users: map<string, Counter>
    var userSamples: map<string, Reading>
    var project: Counter

    ghost predicate Valid()
      reads this
    {
      AllValid(nodes) && AllValid(users) && project.Valid() && Readings(nodeSamples) && Readings(userSamples)
    }

    constructor (projectPeriod: Date)
      ensures Valid() && nodes == map[] && nodeSamples == map[] && users == map[] && userSamples == map[]
      ensures project == Counter(Cycle(projectPeriod), 0, 0, 0, 1, false, false)
    {
      nodes, nodeSamples, users, userSamples := map[], map[], map[], map[];
      project := Counter(Cycle(projectPeriod), 0, 0, 0, 1, false, false);
    }

    // The row that is created together with a node.
    method AddNode(id: string, year: int, month: int) returns (r: Result<(), StoreError>)
      requires Valid()
      modifies this`nodes
      ensures Valid()
      ensures id in old(nodes) ==> r == Err(RowExists) && nodes == old(nodes)
      ensures id !in old(nodes) ==>
                r == Ok(()) && nodes == old(nodes)[id := Counter(Month(year, month), 0, 0, 0, 1, false, false)]
    {
      if id in nodes {
        return Err(RowExists);
      }
      nodes := nodes[id := Counter(Month(year, month), 0, 0, 0, 1, false, false)];
      r := Ok(());
    }

    method Sample(id: string, rawUpload: int, rawDownload: int, now: Instant)
      returns (r: Result<SampleResult, StoreError>)
      requires Valid()
      modifies this`nodes, this`nodeSamples
      ensures Valid()
      ensures r.Ok? <==> rawUpload >= 0 && rawDownload >= 0 && id in old(nodes)
      ensures r.Err? ==> nodes == old(nodes) && nodeSamples == old(nodeSamples)
      ensures r.Ok? ==>
                var raw := Reading(rawUpload, rawDownload);
                var c, previous := old(nodes)[id], Lookup(old(nodeSamples), id);
                nodes == old(nodes)[id := AfterNodeSample(c, previous, raw, now)]
                && nodeSamples == old(nodeSamples)[id := raw]
                && var delta := NodeDeltas(c, previous, raw, CurrentPeriod(now, c.resetDay));
                   r.value == SampleResult(delta.upload, delta.download, nodes[id].upload, nodes[id].download,
                                           VerdictOf(c, nodes[id]), nodes[id].paused)
    {
      if rawUpload < 0 || rawDownload < 0 {
        return Err(NegativeBytes);
      }
      if id !in nodes {
        return Err(NoRow);
      }
      var counter := nodes[id];
      var previous := Lookup(nodeSamples, id);
      var period := CurrentPeriod(now, counter.resetDay);
      if counter.period != period {
        previous := None;
      }
      var deltaUpload, deltaDownload := 0, 0;
      if previous.Some? {
        deltaUpload := rawUpload - previous.value.upload;
        deltaDownload := rawDownload - previous.value.download;
        if deltaUpload < 0 {
          deltaUpload := rawUpload;
        }
        if deltaDownload < 0 {
          deltaDownload := rawDownload;
        }
      }
      var after, verdict := ApplySample(counter, period, deltaUpload, deltaDownload);
      nodeSamples := nodeSamples[id := Reading(rawUpload, rawDownload)];
      nodes := nodes[id := after];
      r := Ok(SampleResult(deltaUpload, deltaDownload, after.upload, after.download, verdict, after.paused));
    }

    method GetUser(id: string, clock: Instant) returns (counter: Counter)
      requires Valid()
      modifies this`users
      ensures Valid()
      ensures users == if id in old(users) then old(users) else old(users)[id := NewUser(clock)]
      ensures id in users && counter == users[id]
    {
      if id !in users {
        users := users[id := NewUser(clock)];
      }
      counter := users[id];
    }

    method SampleUser(id: string, rawUpload: int, rawDownload: int, clock: Instant, now: Instant)
      returns (r: Result<SampleResult, StoreError>)
      requires Valid()
      modifies this`users, this`userSamples
      ensures Valid()
      ensures r.Ok? <==> rawUpload >= 0 && rawDownload >= 0
      ensures r.Err? ==> users == old(users) && userSamples == old(userSamples)
      ensures r.Ok? ==>
                var raw := Reading(rawUpload, rawDownload);
                var c := if id in old(users) then old(users)[id] else NewUser(clock);
                var previous := Lookup(old(userSamples), id);
                users == old(users)[id := AfterUserSample(c, previous, raw, now)]
                && userSamples == old(userSamples)[id := raw]
                && var delta := UserDeltas(c, previous, raw, CurrentPeriod(now, c.resetDay));
                   r.value == SampleResult(delta.upload, delta.download, users[id].upload, users[id].download,
                                           VerdictOf(c, users[id]), users[id].paused)
    {
      if rawUpload < 0 || rawDownload < 0 {
        return Err(NegativeBytes);
      }
      var counter := GetUser(id, clock);
      var previous := Lookup(userSamples, id);
      var period := CurrentPeriod(now, counter.resetDay);
      if counter.period != period {
        previous := None;
      }
      var deltaUpload, deltaDownload := 0, 0;
      if previous.Some? {
        if rawUpload >= previous.value.upload {
          deltaUpload := rawUpload - previous.value.upload;
        }
        if rawDownload >= previous.value.download {
          deltaDownload := rawDownload - previous.value.download;
        }
      }
      var after, verdict := ApplySample(counter, period, deltaUpload, deltaDownload);
      userSamples := userSamples[id := Reading(rawUpload, rawDownload)];
      users := users[id := after];
      r := Ok(SampleResult(deltaUpload, deltaDownload, after.upload, after.download, verdict, after.paused));
    }

    method SampleProject(upload: int, download: int, now: Instant) returns (r: Result<SampleResult, StoreError>)
      requires Valid()
      modifies this`project
      ensures Valid()
      ensures r.Ok? <==> upload >= 0 && download >= 0
      ensures r.Err? ==> project == old(project)
      ensures r.Ok? ==>
                project == Sampled(old(project), CurrentPeriod(now, old(project).resetDay), upload, download)
                && r.value == SampleResult(upload, download, project.upload, project.download,
                                           VerdictOf(old(project), project), project.paused)
    {
      if upload < 0 || download < 0 {
        return Err(NegativeBytes);
      }
      var after, verdict := ApplySample(project, CurrentPeriod(now, project.resetDay), upload, download);
      project := after;
      r := Ok(SampleResult(upload, download, after.upload, after.download, verdict, after.paused));
    }

    method SetUserQuota(id: string, quota: int, resetDay: int, clock: Instant) returns (r: Result<(), StoreError>)
      requires Valid()
      modifies this`users
      ensures Valid()
      ensures r.Ok? <==> quota >= 0 && 1 <= resetDay <= 28
      ensures r.Err? ==> users == old(users)
      ensures r.Ok? ==>
                var c := if id in old(users) then old(users)[id] else NewUser(clock);
                users == old(users)[id := WithUserQuota(c, quota, resetDay)]
    {
      if quota < 0 || resetDay < 1 || resetDay > 28 {
        return Err(InvalidQuota);
      }
      var c := GetUser(id, clock);
      var paused := !(quota == 0 || c.upload + c.download < quota);
      users := users[id := c.(quota := quota, resetDay := resetDay, paused := paused, pausedByQuota := paused)];
      r := Ok(());
    }

    method ResetUser(id: string, clock: Instant) returns (r: Result<(), StoreError>)
      requires Valid()
      modifies this`users, this`userSamples
      ensures Valid()
      ensures r.Ok? <==> id in old(users)
      ensures r.Err? ==> users == old(users) && userSamples == old(userSamples)
      ensures r.Ok? ==>
                users == old(users)[id := Zeroed(old(users)[id], clock)] && userSamples == old(userSamples) - {id}
    {
      if id !in users {
        return Err(NoRow);
      }
      var c := users[id];
      users := users[id := c.(period := CurrentPeriod(clock, c.resetDay), upload := 0, download := 0,
                              paused := false, pausedByQuota := false)];
      userSamples := userSamples - {id};
      r := Ok(());
    }

    method SetQuota(id: string, quota: int, resetDay: int) returns (r: Result<(), StoreError>)
      requires Valid()
      modifies this`nodes
      ensures Valid()
      ensures r.Ok? <==> quota >= 0 && 1 <= resetDay <= 28 && id in old(nodes)
      ensures nodes == if r.Ok? then old(nodes)[id := WithQuota(old(nodes)[id], quota, resetDay)] else old(nodes)
    {
      if quota < 0 || resetDay < 1 || resetDay > 28 {
        return Err(InvalidQuota);
      }
      if id !in nodes {
        return Err(NoRow);
      }
      nodes := nodes[id := nodes[id].(quota := quota, resetDay := resetDay)];
      r := Ok(());
    }

    method SetProjectQuota(quota: int, resetDay: int) returns (r: Result<(), StoreError>)
      requires Valid()
      modifies this`project
      ensures Valid()
      ensures r.Ok? <==> quota >= 0 && 1 <= resetDay <= 28
      ensures project == if r.Ok? then WithQuota(old(project), quota, resetDay) else old(project)
    {
      if quota < 0 || resetDay < 1 || resetDay > 28 {
        return Err(InvalidQuota);
      }
      project := project.(quota := quota, resetDay := resetDay);
      r := Ok(());
    }

    method PauseNode(id: string, paused: bool) returns (r: Result<(), StoreError>)
      requires Valid()
      modifies this`nodes
      ensures Valid()
      ensures r.Ok? <==> id in old(nodes)
      ensures nodes == if r.Ok? then old(nodes)[id := WithPause(old(nodes)[id], paused)] else old(nodes)
    {
      if id !in nodes {
        return Err(NoRow);
      }
      nodes := nodes[id := nodes[id].(paused := paused, pausedByQuota := false)];
      r := Ok(());
    }

    method PauseProject(paused: bool)
      requires Valid()
      modifies this`project
      ensures Valid()
      ensures project == WithPause(old(project), paused)
    {
      project := project.(paused := paused, pausedByQuota := false);
    }

    method Reset(id: string, clock: Instant) returns (r: Result<(), StoreError>)
      requires Valid()
      modifies this`nodes, this`nodeSamples
      ensures Valid()
      ensures r.Ok? <==> id in old(nodes)
      ensures r.Err? ==> nodes == old(nodes) && nodeSamples == old(nodeSamples)
      ensures r.Ok? ==>
                nodes == old(nodes)[id := Zeroed(old(nodes)[id], clock)] && nodeSamples == old(nodeSamples) - {id}
    {
      if id !in nodes {
        return Err(NoRow);
      }
      var c := nodes[id];
      nodes := nodes[id := c.(period := CurrentPeriod(clock, c.resetDay), upload := 0, download := 0,
                              paused := false, pausedByQuota := false)];
      // The next sample establishes a new baseline.
      nodeSamples := nodeSamples - {id};
      r := Ok(());
    }

    method ResetProject(clock: Instant)
      requires Valid()
      modifies this`project
      ensures Valid()
      ensures project == Zeroed(old(project), clock)
    {
      project := project.(period := CurrentPeriod(clock, project.resetDay), upload := 0, download := 0,
                          paused := false, pausedByQuota := false);
    }
  }
}
