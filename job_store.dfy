/** The persisted job table: a key/value store holding one serialized
    `JobData` per key, each written with a fixed expiry. Every mutation loads
    the whole record, changes it and writes the whole record back, which
    resets the expiry to 24 hours from that write. The store's clock is a
    parameter `now` (seconds) of every operation; it also supplies the
    timestamps that `SetStatus` records. */
module JobStore {
  import opened Models

  const JobTtlSeconds: int := 24 * 60 * 60
  const JobKeyPrefix: string := "openshorts:job:"

  /** One stored value: the record and the instant at which the key expires. */
  datatype Entry = Entry(job: JobData, expiresAt: int)

  /** The store key of a job: the prefix followed by the id. */
  function Key(jobId: string): (k: string)
    ensures |k| == |JobKeyPrefix| + |jobId|
    ensures k[..|JobKeyPrefix|] == JobKeyPrefix && k[|JobKeyPrefix|..] == jobId
  {
    JobKeyPrefix + jobId
  }

  /** Distinct ids never share a key. */
  lemma KeyInjective(a: string, b: string)
    ensures Key(a) == Key(b) ==> a == b
  {
    if Key(a) == Key(b) {
      assert a == Key(a)[|JobKeyPrefix|..];
    }
  }

  // ------------------------------------------------------- field updates

  /** A value passed to `update_job` for one field, tagged with its type. */
  datatype FieldValue =
    | AsText(text: string)
    | AsStatus(status: JobStatus)
    | AsSettings(settings: CaptionSettings)
    | AsTime(time: int)
    | AsOptTime(optTime: Option<int>)
    | AsInt(number: int)
    | AsOptText(optText: Option<string>)
    | AsLogs(lines: seq<string>)
    | AsResult(result: Option<JobResult>)

  const JobFieldNames: set<string> := {
    "job_id", "status", "input_url", "caption_settings", "created_at", "started_at",
    "completed_at", "progress_percentage", "progress_stage", "logs", "result", "error"
  }

  /** `getattr(job, name)` for the record's fields; None where `hasattr` is false. */
  function FieldOf(j: JobData, name: string): (r: Option<FieldValue>)
    ensures r.Some? <==> name in JobFieldNames
  {
    if name == "job_id" then Some(AsText(j.jobId))
    else if name == "status" then Some(AsStatus(j.status))
    else if name == "input_url" then Some(AsText(j.inputUrl))
    else if name == "caption_settings" then Some(AsSettings(j.captionSettings))
    else if name == "created_at" then Some(AsTime(j.createdAt))
    else if name == "started_at" then Some(AsOptTime(j.startedAt))
    else if name == "completed_at" then Some(AsOptTime(j.completedAt))
    else if name == "progress_percentage" then Some(AsInt(j.progressPercentage))
    else if name == "progress_stage" then Some(AsOptText(j.progressStage))
    else if name == "logs" then Some(AsLogs(j.logs))
    else if name == "result" then Some(AsResult(j.result))
    else if name == "error" then Some(AsOptText(j.error))
    else None
  }

  /** A record is fully determined by its fields. */
  lemma FieldsDetermineJob(a: JobData, b: JobData)
    requires forall n :: n in JobFieldNames ==> FieldOf(a, n) == FieldOf(b, n)
    ensures a == b
  {
    assert FieldOf(a, "job_id") == FieldOf(b, "job_id");
    assert FieldOf(a, "status") == FieldOf(b, "status");
    assert FieldOf(a, "input_url") == FieldOf(b, "input_url");
    assert FieldOf(a, "caption_settings") == FieldOf(b, "caption_settings");
    assert FieldOf(a, "created_at") == FieldOf(b, "created_at");
    assert FieldOf(a, "started_at") == FieldOf(b, "started_at");
    assert FieldOf(a, "completed_at") == FieldOf(b, "completed_at");
    assert FieldOf(a, "progress_percentage") == FieldOf(b, "progress_percentage");
    assert FieldOf(a, "progress_stage") == FieldOf(b, "progress_stage");
    assert FieldOf(a, "logs") == FieldOf(b, "logs");
    assert FieldOf(a, "result") == FieldOf(b, "result");
    assert FieldOf(a, "error") == FieldOf(b, "error");
  }

  /** The value has the type the named field declares (any value for a name that is no field). */
  predicate WellTyped(name: string, v: FieldValue) {
    if name == "job_id" || name == "input_url" then v.AsText?
    else if name == "status" then v.AsStatus?
    else if name == "caption_settings" then v.AsSettings?
    else if name == "created_at" then v.AsTime?
    else if name == "started_at" || name == "completed_at" then v.AsOptTime?
    else if name == "progress_percentage" then v.AsInt?
    else if name == "progress_stage" || name == "error" then v.AsOptText?
    else if name == "logs" then v.AsLogs?
    else if name == "result" then v.AsResult?
    else true
  }

  /** `if hasattr(job, name): setattr(job, name, v)`. */
  function SetField(j: JobData, name: string, v: FieldValue): (r: JobData)
    requires WellTyped(name, v)
    ensures name in JobFieldNames ==> FieldOf(r, name) == Some(v)
    ensures name !in JobFieldNames ==> r == j
    ensures forall n :: n != name ==> FieldOf(r, n) == FieldOf(j, n)
  {
    if name == "job_id" then j.(jobId := v.text)
    else if name == "status" then j.(status := v.status)
    else if name == "input_url" then j.(inputUrl := v.text)
    else if name == "caption_settings" then j.(captionSettings := v.settings)
    else if name == "created_at" then j.(createdAt := v.time)
    else if name == "started_at" then j.(startedAt := v.optTime)
    else if name == "completed_at" then j.(completedAt := v.optTime)
    else if name == "progress_percentage" then j.(progressPercentage := v.number)
    else if name == "progress_stage" then j.(progressStage := v.optText)
    else if name == "logs" then j.(logs := v.lines)
    else if name == "result" then j.(result := v.result)
    else if name == "error" then j.(error := v.optText)
    else j
  }

  predicate AllWellTyped(updates: seq<(string, FieldValue)>) {
    forall k :: 0 <= k < |updates| ==> WellTyped(updates[k].0, updates[k].1)
  }

  /** Whether some update in the list names field `n`. */
  predicate Names(updates: seq<(string, FieldValue)>, n: string) {
    exists k :: 0 <= k < |updates| && updates[k].0 == n
  }

  /** The `setattr` loop of `update_job`, in the order the updates are given.
      A field no update names keeps its value; a field takes the value of the
      last update that names it; names that are no field change nothing. */
  function ApplyUpdates(j: JobData, updates: seq<(string, FieldValue)>): (r: JobData)
    requires AllWellTyped(updates)
    ensures forall n :: !Names(updates, n) ==> FieldOf(r, n) == FieldOf(j, n)
    ensures forall k :: 0 <= k < |updates| ==>
              updates[k].0 in JobFieldNames ==>
              (forall m :: k < m < |updates| ==> updates[m].0 != updates[k].0) ==>
              FieldOf(r, updates[k].0) == Some(updates[k].1)
    decreases |updates|
  {
    if updates == [] then j
    else
      var rest := ApplyUpdates(SetField(j, updates[0].0, updates[0].1), updates[1..]);
      assert forall n :: Names(updates[1..], n) ==> Names(updates, n) by {
        forall n | Names(updates[1..], n) ensures Names(updates, n) {
          var k :| 0 <= k < |updates[1..]| && updates[1..][k].0 == n;
          assert updates[k + 1].0 == n;
        }
      }
      assert forall k :: 1 <= k < |updates| ==> updates[k] == updates[1..][k - 1];
      rest
  }

  // --------------------------------------------------- status transitions

  /** The record `set_status` writes: any transition is accepted; entering
      Processing stamps `startedAt`, entering Completed or Failed stamps
      `completedAt` and records `error` only when it is a non-empty text;
      every other field keeps its value. */
  function WithStatus(j: JobData, status: JobStatus, error: Option<string>, now: int): (r: JobData)
    ensures r.status == status
    ensures status == Processing ==>
      r.startedAt == Some(now) && r.completedAt == j.completedAt && r.error == j.error
    ensures IsTerminal(status) ==>
      r.completedAt == Some(now) && r.startedAt == j.startedAt
      && r.error == (if Truthy(error) then error else j.error)
    ensures status == Queued ==>
      r.startedAt == j.startedAt && r.completedAt == j.completedAt && r.error == j.error
    ensures r.(status := j.status, startedAt := j.startedAt, completedAt := j.completedAt, error := j.error) == j
  {
    var j1 := j.(status := status);
    if status == Processing then j1.(startedAt := Some(now))
    else if status == Completed || status == Failed then
      j1.(completedAt := Some(now), error := if Truthy(error) then error else j.error)
    else j1
  }

  /** The field updates `update_progress` passes to `update_job`. */
  function ProgressUpdates(percentage: int, stage: Option<string>): (us: seq<(string, FieldValue)>)
    ensures AllWellTyped(us)
  {
    [("progress_percentage", AsInt(percentage))]
      + (if Truthy(stage) then [("progress_stage", AsOptText(stage))] else [])
  }

  /** `update_progress` sets the percentage always and the stage only when it is a non-empty text. */
  lemma ProgressUpdatesEffect(j: JobData, percentage: int, stage: Option<string>)
    ensures ApplyUpdates(j, ProgressUpdates(percentage, stage))
      == j.(progressPercentage := percentage,
            progressStage := if Truthy(stage) then stage else j.progressStage)
  {
    var us := ProgressUpdates(percentage, stage);
    var r := ApplyUpdates(j, us);
    var e := j.(progressPercentage := percentage,
                progressStage := if Truthy(stage) then stage else j.progressStage);
    assert us[0].0 == "progress_percentage";
    assert Truthy(stage) ==> us[1].0 == "progress_stage" && |us| == 2;
    forall n | n in JobFieldNames ensures FieldOf(r, n) == FieldOf(e, n) {
      if n != "progress_percentage" && n != "progress_stage" {
        assert !Names(us, n);
      } else if n == "progress_percentage" {
        assert FieldOf(r, us[0].0) == Some(us[0].1);
      } else if Truthy(stage) {
        assert FieldOf(r, us[1].0) == Some(us[1].1);
      } else {
        assert !Names(us, n);
      }
    }
    FieldsDetermineJob(r, e);
  }

  // --------------------------------------------------------------- store

  class RedisJobStore {
    /** key -> stored record and its expiry */
    var data: map<string, Entry>

    /** Every record is stored under its own id's key. */
    ghost predicate Valid()
      reads this
    {
      forall k :: k in data ==> k == Key(data[k].job.jobId)
    }

    /** The record a read of `jobId` at time `now` returns: present and not yet expired. */
    function Find(jobId: string, now: int): Option<JobData>
      reads this
    {
      var k := Key(jobId);
      if k in data && now < data[k].expiresAt then Some(data[k].job) else None
    }

    constructor ()
      ensures Valid() && data == map[]
    {
      data := map[];
    }

    /** `create_job`: the whole record written under its id's key, expiring 24 hours from now. */
    method CreateJob(job: JobData, now: int)
      requires Valid()
      modifies this
      ensures Valid()
      ensures data == old(data)[Key(job.jobId) := Entry(job, now + JobTtlSeconds)]
      ensures forall t :: now <= t < now + JobTtlSeconds ==> Find(job.jobId, t) == Some(job)
    {
      data := data[Key(job.jobId) := Entry(job, now + JobTtlSeconds)];
      forall k | k in data ensures k == Key(data[k].job.jobId) {
        if k != Key(job.jobId) {
          assert data[k] == old(data)[k];
        }
      }
    }

    /** `get_job`: the stored record if its key is present and not expired. */
    method GetJob(jobId: string, now: int) returns (r: Option<JobData>)
      ensures r.Some? <==> (Key(jobId) in data && now < data[Key(jobId)].expiresAt)
      ensures r.Some? ==> r.value == data[Key(jobId)].job
      ensures Valid() && r.Some? ==> r.value.jobId == jobId
    {
      var k := Key(jobId);
      if k in data && now < data[k].expiresAt {
        r := Some(data[k].job);
        if Valid() {
          KeyInjective(r.value.jobId, jobId);
        }
      } else {
        r := None;
      }
    }

    /** `update_job`: apply the updates to the current record and write it back;
        nothing is written and None returned when the job is missing. */
    method UpdateJob(jobId: string, updates: seq<(string, FieldValue)>, now: int) returns (r: Option<JobData>)
      requires Valid() && AllWellTyped(updates)
      modifies this
      ensures Valid()
      ensures old(Find(jobId, now)).None? ==> r.None? && data == old(data)
      ensures old(Find(jobId, now)).Some? ==>
        r == Some(ApplyUpdates(old(Find(jobId, now)).value, updates))
        && data == old(data)[Key(r.value.jobId) := Entry(r.value, now + JobTtlSeconds)]
    {
      var job := GetJob(jobId, now);
      if job.None? {
        return None;
      }
      var updated := ApplyUpdates(job.value, updates);
      CreateJob(updated, now);
      r := Some(updated);
    }

    /** `append_log`: exactly one message added at the end of the logs, nothing
        else changed; a missing job is left missing. */
    method AppendLog(jobId: string, message: string, now: int)
      requires Valid()
      modifies this
      ensures Valid()
      ensures old(Find(jobId, now)).None? ==> data == old(data)
      ensures old(Find(jobId, now)).Some? ==>
        var j := old(Find(jobId, now)).value;
        data == old(data)[Key(jobId) := Entry(j.(logs := j.logs + [message]), now + JobTtlSeconds)]
    {
      var job := GetJob(jobId, now);
      if job.Some? {
        var j := job.value;
        CreateJob(j.(logs := j.logs + [message]), now);
      }
    }

    /** `set_status`: the record rewritten as WithStatus describes, whatever its current status. */
    method SetStatus(jobId: string, status: JobStatus, error: Option<string>, now: int)
      requires Valid()
      modifies this
      ensures Valid()
      ensures old(Find(jobId, now)).None? ==> data == old(data)
      ensures old(Find(jobId, now)).Some? ==>
        data == old(data)[Key(jobId) := Entry(WithStatus(old(Find(jobId, now)).value, status, error, now), now + JobTtlSeconds)]
    {
      var job := GetJob(jobId, now);
      if job.None? {
        return;
      }
      CreateJob(WithStatus(job.value, status, error, now), now);
    }

    /** `update_progress`: the percentage always, the stage only when it is a non-empty text. */
    method UpdateProgress(jobId: string, percentage: int, stage: Option<string>, now: int)
      requires Valid()
      modifies this
      ensures Valid()
      ensures old(Find(jobId, now)).None? ==> data == old(data)
      ensures old(Find(jobId, now)).Some? ==>
        var j := old(Find(jobId, now)).value;
        data == old(data)[Key(jobId) := Entry(
          j.(progressPercentage := percentage,
             progressStage := if Truthy(stage) then stage else j.progressStage),
          now + JobTtlSeconds)]
    {
      ghost var before := Find(jobId, now);
      if before.Some? {
        KeyInjective(before.value.jobId, jobId);
        ProgressUpdatesEffect(before.value, percentage, stage);
      }
      var _ := UpdateJob(jobId, ProgressUpdates(percentage, stage), now);
    }

    /** `set_result`: the result replaced as a whole, nothing else changed. */
    method SetResult(jobId: string, result: JobResult, now: int)
      requires Valid()
      modifies this
      ensures Valid()
      ensures old(Find(jobId, now)).None? ==> data == old(data)
      ensures old(Find(jobId, now)).Some? ==>
        data == old(data)[Key(jobId) := Entry(old(Find(jobId, now)).value.(result := Some(result)), now + JobTtlSeconds)]
    {
      ghost var before := Find(jobId, now);
      var us := [("result", AsResult(Some(result)))];
      if before.Some? {
        KeyInjective(before.value.jobId, jobId);
        var r := ApplyUpdates(before.value, us);
        var e := before.value.(result := Some(result));
        forall n | n in JobFieldNames ensures FieldOf(r, n) == FieldOf(e, n) {
          if n != "result" {
            assert !Names(us, n);
          } else {
            assert FieldOf(r, us[0].0) == Some(us[0].1);
          }
        }
        FieldsDetermineJob(r, e);
      }
      var _ := UpdateJob(jobId, us, now);
    }
  }
}
