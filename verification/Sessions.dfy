/** Per-account sums of the VPN server's session counters. */
module Sessions {
  import opened Wrappers
  import opened Text
  import opened Counters
  import opened Metering

  // One session as the control tool lists it; None is a counter that cannot be read.
  datatype Row = Row(username: string, upload: Option<nat>, download: Option<nat>)

  datatype ListError = BadCounter

  predicate Counted(row: Row) {
    TrimSpace(row.username) != "" && TrimSpace(row.username) != "(none)"
  }

  predicate Readable(row: Row) {
    row.upload.Some? && row.download.Some?
  }

  // The readable sessions of an account, in order.
  function SessionsOf(rows: seq<Row>, name: string): seq<Reading> {
    if |rows| == 0 then []
    else
      var row := rows[|rows| - 1];
      var before := SessionsOf(rows[..|rows| - 1], name);
      if Counted(row) && TrimSpace(row.username) == name && Readable(row)
      then before + [Reading(row.upload.value, row.download.value)]
      else before
  }

  lemma {:induction false} SessionsSkip(rows: seq<Row>, k: nat, name: string)
    requires k < |rows| && !Counted(rows[k])
    ensures SessionsOf(rows[..k + 1], name) == SessionsOf(rows[..k], name)
  {
    assert rows[..k + 1][..k] == rows[..k];
  }

  lemma {:induction false} SessionsStep(rows: seq<Row>, k: nat, name: string)
    requires k < |rows| && Readable(rows[k])
    ensures var before, after := SessionsOf(rows[..k], name), SessionsOf(rows[..k + 1], name);
            var mine := Counted(rows[k]) && TrimSpace(rows[k].username) == name;
            (mine ==> after == before + [Reading(rows[k].upload.value, rows[k].download.value)]
                      && Sum(after) == Reading(Sum(before).upload + rows[k].upload.value,
                                               Sum(before).download + rows[k].download.value))
            && (!mine ==> after == before)
  {
    assert rows[..k + 1][..k] == rows[..k];
    var before := SessionsOf(rows[..k], name);
    var s := Reading(rows[k].upload.value, rows[k].download.value);
    assert (before + [s])[..|before|] == before;
  }

  // The accounts with a session, each with the sum over its sessions.
  ghost predicate Tallied(byUser: map<string, Reading>, rows: seq<Row>) {
    forall name ::
      && (name in byUser <==> SessionsOf(rows, name) != [])
      && (name in byUser ==> byUser[name] == Sum(SessionsOf(rows, name)))
  }

  lemma TallySkip(byUser: map<string, Reading>, rows: seq<Row>, k: nat)
    requires k < |rows| && Tallied(byUser, rows[..k]) && !Counted(rows[k])
    ensures Tallied(byUser, rows[..k + 1])
  {
    assert rows[..k + 1][..k] == rows[..k];
  }

  function Added(byUser: map<string, Reading>, name: string, upload: nat, download: nat): map<string, Reading> {
    var value := if name in byUser then byUser[name] else Reading(0, 0);
    byUser[name := Reading(value.upload + upload, value.download + download)]
  }

  lemma {:induction false} TallyAdd(byUser: map<string, Reading>, rows: seq<Row>, k: nat)
    requires k < |rows| && Tallied(byUser, rows[..k]) && Counted(rows[k]) && Readable(rows[k])
    ensures Tallied(Added(byUser, TrimSpace(rows[k].username), rows[k].upload.value, rows[k].download.value),
                    rows[..k + 1])
  {
    var after := Added(byUser, TrimSpace(rows[k].username), rows[k].upload.value, rows[k].download.value);
    forall name
      ensures name in after <==> SessionsOf(rows[..k + 1], name) != []
      ensures name in after ==> after[name] == Sum(SessionsOf(rows[..k + 1], name))
    {
      SessionsStep(rows, k, name);
      NameTallied(byUser, rows[..k], name);
    }
  }

  lemma NameTallied(byUser: map<string, Reading>, rows: seq<Row>, name: string)
    requires Tallied(byUser, rows)
    ensures name in byUser <==> SessionsOf(rows, name) != []
    ensures Sum(SessionsOf(rows, name)) == if name in byUser then byUser[name] else Reading(0, 0)
  {}

  ghost predicate Progress(byUser: map<string, Reading>, rows: seq<Row>, k: nat) {
    && k <= |rows| && Tallied(byUser, rows[..k])
    && forall j :: 0 <= j < k && Counted(rows[j]) ==> Readable(rows[j])
  }

  // One turn of the loop: a row that is not counted changes nothing, a readable one is added.
  lemma ProgressStep(byUser: map<string, Reading>, rows: seq<Row>, k: nat, username: string)
    requires k < |rows| && Progress(byUser, rows, k) && username == TrimSpace(rows[k].username)
    ensures !Counted(rows[k]) ==> Progress(byUser, rows, k + 1)
    ensures Counted(rows[k]) && Readable(rows[k]) ==>
              Progress(Added(byUser, username, rows[k].upload.value, rows[k].download.value), rows, k + 1)
  {
    if !Counted(rows[k]) {
      TallySkip(byUser, rows, k);
    } else if Readable(rows[k]) {
      TallyAdd(byUser, rows, k);
    }
  }

  // The bytes of all sessions with a name, one direction at a time.
  function UploadedBy(rows: seq<Row>, name: string): nat {
    if |rows| == 0 then 0
    else
      var row := rows[|rows| - 1];
      UploadedBy(rows[..|rows| - 1], name)
      + if TrimSpace(row.username) == name && row.upload.Some? then row.upload.value else 0
  }

  function DownloadedBy(rows: seq<Row>, name: string): nat {
    if |rows| == 0 then 0
    else
      var row := rows[|rows| - 1];
      DownloadedBy(rows[..|rows| - 1], name)
      + if TrimSpace(row.username) == name && row.download.Some? then row.download.value else 0
  }

  lemma {:induction false} SessionTotals(rows: seq<Row>, name: string)
    requires name != "" && name != "(none)"
    requires forall k :: 0 <= k < |rows| && Counted(rows[k]) ==> Readable(rows[k])
    ensures Sum(SessionsOf(rows, name)) == Reading(UploadedBy(rows, name), DownloadedBy(rows, name))
    decreases |rows|
  {
    if |rows| > 0 {
      var n := |rows| - 1;
      SessionTotals(rows[..n], name);
      assert rows[..n + 1] == rows;
      if Counted(rows[n]) {
        SessionsStep(rows, n, name);
      } else {
        SessionsSkip(rows, n, name);
      }
    }
  }

  // A session carries the name, apart from spaces around it.
  predicate HasSession(rows: seq<Row>, name: string) {
    exists k :: 0 <= k < |rows| && TrimSpace(rows[k].username) == name
  }

  lemma {:induction false} SessionsExist(rows: seq<Row>, name: string)
    requires forall k :: 0 <= k < |rows| && Counted(rows[k]) ==> Readable(rows[k])
    ensures SessionsOf(rows, name) != [] <==> name != "" && name != "(none)" && HasSession(rows, name)
    decreases |rows|
  {
    if |rows| > 0 {
      var n := |rows| - 1;
      SessionsExist(rows[..n], name);
      assert forall k :: 0 <= k < n ==> rows[..n][k] == rows[k];
      HasSessionStep(rows, name);
    }
  }

  lemma {:induction false} HasSessionStep(rows: seq<Row>, name: string)
    requires |rows| > 0
    ensures var n := |rows| - 1;
            HasSession(rows, name) <==> HasSession(rows[..n], name) || TrimSpace(rows[n].username) == name
  {
    var n := |rows| - 1;
    if HasSession(rows[..n], name) {
      var k :| 0 <= k < n && TrimSpace(rows[..n][k].username) == name;
      assert rows[k] == rows[..n][k];
    }
    if k :| 0 <= k < n && TrimSpace(rows[k].username) == name {
      assert rows[..n][k] == rows[k];
    }
  }

  // Every session with a name has two counters that can be read.
  predicate AllReadable(rows: seq<Row>) {
    forall k :: 0 <= k < |rows| ==>
      var name := TrimSpace(rows[k].username);
      name == "" || name == "(none)" || (rows[k].upload.Some? && rows[k].download.Some?)
  }

  // The accounts are the names of the sessions, each with the bytes of its sessions.
  ghost predicate ListsNamed(byUser: map<string, Reading>, rows: seq<Row>) {
    forall name ::
      && (name in byUser <==> name != "" && name != "(none)" && HasSession(rows, name))
      && (name in byUser ==> byUser[name] == Reading(UploadedBy(rows, name), DownloadedBy(rows, name)))
  }

  lemma {:induction false} EveryRow(rows: seq<Row>)
    ensures AllReadable(rows) <==> forall k :: 0 <= k < |rows| && Counted(rows[k]) ==> Readable(rows[k])
  {
    if !AllReadable(rows) {
      var k :| 0 <= k < |rows| && Counted(rows[k]) && !Readable(rows[k]);
    }
  }

  lemma {:induction false} ListedNames(byUser: map<string, Reading>, rows: seq<Row>)
    requires Tallied(byUser, rows) && forall k :: 0 <= k < |rows| && Counted(rows[k]) ==> Readable(rows[k])
    ensures ListsNamed(byUser, rows)
  {
    forall name
      ensures name in byUser <==> name != "" && name != "(none)" && HasSession(rows, name)
      ensures name in byUser ==> byUser[name] == Reading(UploadedBy(rows, name), DownloadedBy(rows, name))
    {
      NameTallied(byUser, rows, name);
      SessionsExist(rows, name);
      if name != "" && name != "(none)" {
        SessionTotals(rows, name);
      }
    }
  }

  // An account is listed exactly when it has a session, with the sum over its sessions.
  method ListUserTraffic(rows: seq<Row>) returns (r: Result<map<string, Reading>, ListError>)
    ensures r.Ok? <==> AllReadable(rows)
    ensures r.Ok? ==> Tallied(r.value, rows) && ListsNamed(r.value, rows)
  {
    var byUser: map<string, Reading> := map[];
    for k := 0 to |rows|
      invariant Progress(byUser, rows, k)
    {
      var item := rows[k];
      var username := TrimSpace(item.username);
      ProgressStep(byUser, rows, k, username);
      if username == "" || username == "(none)" {
        continue;
      }
      if item.upload.None? || item.download.None? {
        EveryRow(rows);
        return Err(BadCounter);
      }
      var value := if username in byUser then byUser[username] else Reading(0, 0);
      byUser := byUser[username := Reading(value.upload + item.upload.value, value.download + item.download.value)];
    }
    assert rows[..|rows|] == rows;
    ListedNames(byUser, rows);
    EveryRow(rows);
    r := Ok(byUser);
  }
}
