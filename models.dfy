/** The records and enumerations of the job pipeline: caption styles, job
    status, caption settings, clip and job results and the job record, with
    the defaults their declarations give. Timestamps are whole seconds. */
module Models {

  datatype Option<+T> = None | Some(value: T) {
    function GetOr(default: T): T {
      match this
      case Some(v) => v
      case None => default
    }
  }

  /** A value or the message of the exception raised instead. */
  datatype Result<+T> = Ok(value: T) | Err(message: string)

  /** Python truthiness of an optional string: present and not empty. */
  predicate Truthy(s: Option<string>) {
    s.Some? && s.value != ""
  }

  // ------------------------------------------------------- caption styles

  datatype CaptionStyle = Classic | Boxed | Yellow | Minimal | Bold | Karaoke | Neon | Gradient | NoCaptions

  /** The string value of each style. */
  function StyleValue(s: CaptionStyle): string {
    match s
    case Classic => "classic"
    case Boxed => "boxed"
    case Yellow => "yellow"
    case Minimal => "minimal"
    case Bold => "bold"
    case Karaoke => "karaoke"
    case Neon => "neon"
    case Gradient => "gradient"
    case NoCaptions => "none"
  }

  const AllCaptionStyles: seq<CaptionStyle> :=
    [Classic, Boxed, Yellow, Minimal, Bold, Karaoke, Neon, Gradient, NoCaptions]

  /** `CaptionStyleEnum(value)`: the style whose value is `v`, if any. */
  function ParseCaptionStyle(v: string): (r: Option<CaptionStyle>)
    ensures r.Some? ==> StyleValue(r.value) == v
    ensures r.None? <==> forall s: CaptionStyle :: StyleValue(s) != v
  {
    if v == "classic" then Some(Classic)
    else if v == "boxed" then Some(Boxed)
    else if v == "yellow" then Some(Yellow)
    else if v == "minimal" then Some(Minimal)
    else if v == "bold" then Some(Bold)
    else if v == "karaoke" then Some(Karaoke)
    else if v == "neon" then Some(Neon)
    else if v == "gradient" then Some(Gradient)
    else if v == "none" then Some(NoCaptions)
    else None
  }

  /** There are exactly nine styles, with nine distinct values, "none" among them. */
  lemma CaptionStylesEnumerated()
    ensures |AllCaptionStyles| == 9
    ensures forall s: CaptionStyle :: s in AllCaptionStyles
    ensures forall i, j :: 0 <= i < j < |AllCaptionStyles| ==>
      StyleValue(AllCaptionStyles[i]) != StyleValue(AllCaptionStyles[j])
    ensures ParseCaptionStyle("none") == Some(NoCaptions)
  {
    forall s: CaptionStyle ensures s in AllCaptionStyles {
      var i := match s
        case Classic => 0 case Boxed => 1 case Yellow => 2 case Minimal => 3 case Bold => 4
        case Karaoke => 5 case Neon => 6 case Gradient => 7 case NoCaptions => 8;
      assert AllCaptionStyles[i] == s;
    }
  }

  // ----------------------------------------------------------- job status

  datatype JobStatus = Queued | Processing | Completed | Failed

  function StatusValue(s: JobStatus): string {
    match s
    case Queued => "queued"
    case Processing => "processing"
    case Completed => "completed"
    case Failed => "failed"
  }

  const AllJobStatuses: seq<JobStatus> := [Queued, Processing, Completed, Failed]

  /** `JobStatus(value)`: the status whose value is `v`, if any. */
  function ParseJobStatus(v: string): (r: Option<JobStatus>)
    ensures r.Some? ==> StatusValue(r.value) == v
    ensures r.None? <==> forall s: JobStatus :: StatusValue(s) != v
  {
    if v == "queued" then Some(Queued)
    else if v == "processing" then Some(Processing)
    else if v == "completed" then Some(Completed)
    else if v == "failed" then Some(Failed)
    else None
  }

  /** Exactly four statuses, with distinct values. */
  lemma JobStatusesEnumerated()
    ensures |AllJobStatuses| == 4
    ensures forall s: JobStatus :: s in AllJobStatuses
    ensures forall i, j :: 0 <= i < j < |AllJobStatuses| ==>
      StatusValue(AllJobStatuses[i]) != StatusValue(AllJobStatuses[j])
  {
    forall s: JobStatus ensures s in AllJobStatuses {
      var i := match s case Queued => 0 case Processing => 1 case Completed => 2 case Failed => 3;
      assert AllJobStatuses[i] == s;
    }
  }

  predicate IsTerminal(s: JobStatus) {
    s == Completed || s == Failed
  }

  // -------------------------------------------------------------- records

  datatype CaptionSettings = CaptionSettings(
    includeCaptions: bool,
    style: CaptionStyle,
    color: Option<string>,        // hex colour such as "#FFFFFF"
    outlineColor: Option<string>)

  /** `CaptionSettings()`: captions on, no style, no colours. */
  function DefaultCaptionSettings(): (c: CaptionSettings)
    ensures c.includeCaptions && c.style == NoCaptions
    ensures c.color.None? && c.outlineColor.None?
  {
    CaptionSettings(true, NoCaptions, None, None)
  }

  datatype ClipResult = ClipResult(
    videoUrl: string,
    title: Option<string>,
    descriptionTiktok: Option<string>,
    descriptionInstagram: Option<string>,
    descriptionYoutube: Option<string>)

  /** `ClipResult(video_url=u)`: only the locator is required, every text is optional. */
  function NewClipResult(videoUrl: string): (c: ClipResult)
    ensures c.videoUrl == videoUrl
    ensures c.title.None? && c.descriptionTiktok.None?
    ensures c.descriptionInstagram.None? && c.descriptionYoutube.None?
  {
    ClipResult(videoUrl, None, None, None, None)
  }

  /** The transcript payload is carried as its serialized text; the core never looks inside. */
  datatype JobResult = JobResult(clips: seq<ClipResult>, transcript: Option<string>)

  /** `JobResult(clips=cs)`: no transcript unless one is given. */
  function NewJobResult(clips: seq<ClipResult>): (r: JobResult)
    ensures r.clips == clips && r.transcript.None?
  {
    JobResult(clips, None)
  }

  datatype JobData = JobData(
    jobId: string,
    status: JobStatus,
    inputUrl: string,
    captionSettings: CaptionSettings,
    createdAt: int,
    startedAt: Option<int>,
    completedAt: Option<int>,
    progressPercentage: int,
    progressStage: Option<string>,
    logs: seq<string>,
    result: Option<JobResult>,
    error: Option<string>)

  /** `JobData(job_id=..., input_url=..., caption_settings=..., created_at=...)`:
      queued, no progress, no logs, nothing started, finished, produced or failed. */
  function NewJobData(jobId: string, inputUrl: string, settings: CaptionSettings, createdAt: int): (j: JobData)
    ensures j.jobId == jobId && j.inputUrl == inputUrl
    ensures j.captionSettings == settings && j.createdAt == createdAt
    ensures j.status == Queued && !IsTerminal(j.status)
    ensures j.progressPercentage == 0 && j.progressStage.None?
    ensures j.logs == []
    ensures j.startedAt.None? && j.completedAt.None?
    ensures j.result.None? && j.error.None?
  {
    JobData(jobId, Queued, inputUrl, settings, createdAt, None, None, 0, None, [], None, None)
  }
}
