/** The orchestration of a v2 job: the progress classifier for log lines,
    the partial-result scanner and the finalizer over an abstract output
    directory, the command line for the clip generator, the resolution of a
    process run into a final status, and the worker that hands queued jobs
    to a fixed number of slots. The output directory is a map from file name
    to size, the metadata file an already-decoded descriptor, and the
    generator process a recorded run. */
module App {
  import opened Models
  import opened Text
  import opened JobStore

  // ------------------------------------------------------------ progress

  datatype Progress = Progress(percentage: int, stage: string)

  /** A classifier rule: any of the needles selects the progress value. */
  datatype Rule = Rule(needles: seq<string>, progress: Progress)

  /** The rules in the order they are tried. */
  const ProgressRules: seq<Rule> := [
    Rule(["downloading"], Progress(10, "Downloading video")),
    Rule(["transcribing"], Progress(30, "Transcribing audio")),
    Rule(["analyzing", "gemini"], Progress(50, "AI analysis")),
    Rule(["processing clip", "extracting"], Progress(70, "Creating clips")),
    Rule(["clip saved", "saved to"], Progress(90, "Finalizing"))
  ]

  predicate RuleMatches(rule: Rule, s: string) {
    exists i | 0 <= i < |rule.needles| :: Contains(s, rule.needles[i])
  }

  /** `parse_progress`: the progress value of the first rule one of whose
      needles occurs in the lower-cased line; None when no needle occurs. */
  function ParseProgress(line: string): (r: Option<Progress>)
    ensures r.Some? ==> r.value.percentage in {10, 30, 50, 70, 90} && r.value.stage != ""
  {
    var s := Lower(line);
    if Contains(s, "downloading") then Some(Progress(10, "Downloading video"))
    else if Contains(s, "transcribing") then Some(Progress(30, "Transcribing audio"))
    else if Contains(s, "analyzing") || Contains(s, "gemini") then Some(Progress(50, "AI analysis"))
    else if Contains(s, "processing clip") || Contains(s, "extracting") then Some(Progress(70, "Creating clips"))
    else if Contains(s, "clip saved") || Contains(s, "saved to") then Some(Progress(90, "Finalizing"))
    else None
  }

  /** The rules tried in order; the first that matches decides. */
  function FirstMatch(rules: seq<Rule>, s: string): (r: Option<Progress>)
    ensures r.None? <==> forall k :: 0 <= k < |rules| ==> !RuleMatches(rules[k], s)
    decreases |rules|
  {
    if rules == [] then None
    else if RuleMatches(rules[0], s) then Some(rules[0].progress)
    else
      var r := FirstMatch(rules[1..], s);
      assert forall k :: 1 <= k < |rules| ==> rules[k] == rules[1..][k - 1];
      r
  }

  lemma {:induction false} FirstMatchIsFirst(rules: seq<Rule>, s: string, k: nat)
    requires k < |rules| && RuleMatches(rules[k], s)
    requires forall j :: 0 <= j < k ==> !RuleMatches(rules[j], s)
    ensures FirstMatch(rules, s) == Some(rules[k].progress)
    decreases k
  {
    if k > 0 {
      FirstMatchIsFirst(rules[1..], s, k - 1);
    }
  }

  lemma MatchesOne(rule: Rule, s: string)
    requires |rule.needles| == 1
    ensures RuleMatches(rule, s) <==> Contains(s, rule.needles[0])
  {
    if Contains(s, rule.needles[0]) {
      assert exists i | 0 <= i < 1 :: Contains(s, rule.needles[i]);
    }
  }

  lemma MatchesTwo(rule: Rule, s: string)
    requires |rule.needles| == 2
    ensures RuleMatches(rule, s) <==> Contains(s, rule.needles[0]) || Contains(s, rule.needles[1])
  {
    if RuleMatches(rule, s) {
      var i :| 0 <= i < 2 && Contains(s, rule.needles[i]);
      assert i == 0 || i == 1;
    }
    if Contains(s, rule.needles[0]) {
      assert Contains(s, rule.needles[0]);
    } else if Contains(s, rule.needles[1]) {
      assert Contains(s, rule.needles[1]);
    }
  }

  /** The if-chain of `parse_progress` is exactly the ordered rule table. */
  lemma ParseProgressFollowsRules(line: string)
    ensures ParseProgress(line) == FirstMatch(ProgressRules, Lower(line))
  {
    var s := Lower(line);
    var rs := ProgressRules;
    MatchesOne(rs[0], s);
    MatchesOne(rs[1], s);
    MatchesTwo(rs[2], s);
    MatchesTwo(rs[3], s);
    MatchesTwo(rs[4], s);
    assert rs[1..][0] == rs[1];
    assert rs[1..][1..][0] == rs[2];
    assert rs[1..][1..][1..][0] == rs[3];
    assert rs[1..][1..][1..][1..][0] == rs[4];
    assert rs[1..][1..][1..][1..][1..] == [];
  }

  /** Every value the classifier returns is the value of one of the rules. */
  lemma ParseProgressValues(line: string)
    ensures ParseProgress(line).Some? ==>
      exists k | 0 <= k < |ProgressRules| :: ParseProgress(line).value == ProgressRules[k].progress
  {
    var r := ParseProgress(line);
    if r.Some? {
      var k := if r.value.percentage == 10 then 0 else if r.value.percentage == 30 then 1
        else if r.value.percentage == 50 then 2 else if r.value.percentage == 70 then 3 else 4;
      assert r.value == ProgressRules[k].progress;
    }
  }

  /** The first rule that matches the lower-cased line wins, whatever later rules also match. */
  lemma ParseProgressFirstWins(line: string, k: nat)
    requires k < |ProgressRules| && RuleMatches(ProgressRules[k], Lower(line))
    requires forall j :: 0 <= j < k ==> !RuleMatches(ProgressRules[j], Lower(line))
    ensures ParseProgress(line) == Some(ProgressRules[k].progress)
  {
    ParseProgressFollowsRules(line);
    FirstMatchIsFirst(ProgressRules, Lower(line), k);
  }

  /** No progress exactly when no needle of any rule occurs. */
  lemma ParseProgressNone(line: string)
    ensures ParseProgress(line).None? <==>
      forall k :: 0 <= k < |ProgressRules| ==> !RuleMatches(ProgressRules[k], Lower(line))
  {
    ParseProgressFollowsRules(line);
  }

  /** The classifier sees only the lower-cased line. */
  lemma ParseProgressCaseInsensitive(line: string)
    ensures ParseProgress(Lower(line)) == ParseProgress(line)
  {
    LowerIdempotent(line);
  }

  // -------------------------------------------------- output directory

  /** The fields of a descriptor entry the pipeline reads; each may be absent. */
  datatype ClipEntry = ClipEntry(
    youtubeTitle: Option<string>,
    tiktokDescription: Option<string>,
    instagramDescription: Option<string>)

  /** The decoded metadata file: its `shorts` list (empty when the key is
      absent), or the message of the error decoding it raised. */
  datatype Descriptor = Parsed(shorts: seq<ClipEntry>) | Malformed(message: string)

  /** The job's output directory at one moment: the names the metadata
      pattern matches, in the order the listing returns them, the size of
      every file present, and the decoded content of the first metadata file. */
  datatype Snapshot = Snapshot(metadataFiles: seq<string>, files: map<string, nat>, descriptor: Descriptor)

  const MetadataSuffix: string := "_metadata.json"

  /** The clip name stem: the metadata file name with the suffix removed. */
  function MetadataBase(name: string): string {
    RemoveAll(name, MetadataSuffix)
  }

  /** A name that is a stem followed by the suffix, with no earlier
      occurrence of the suffix, gives back the stem. */
  lemma MetadataBaseOfName(stem: string)
    requires forall i :: 0 <= i < |stem| ==> !OccursAt(stem + MetadataSuffix, MetadataSuffix, i)
    ensures MetadataBase(stem + MetadataSuffix) == stem
  {
    RemoveTrailing(stem, MetadataSuffix);
  }

  lemma MetadataBaseExample()
    ensures MetadataBase("my_video_metadata.json") == "my_video"
  {
    var stem := "my_video";
    var s := stem + MetadataSuffix;
    assert s == "my_video_metadata.json";
    forall i | 0 <= i < |stem|
      ensures !OccursAt(s, MetadataSuffix, i)
    {
      assert s[i..i + |MetadataSuffix|][0] == s[i] && s[i..i + |MetadataSuffix|][1] == s[i + 1];
    }
    MetadataBaseOfName(stem);
  }

  /** `{base}_clip_{i+1}.mp4` */
  function ClipFileName(base: string, i: nat): string {
    base + "_clip_" + NatToDecimal(i + 1) + ".mp4"
  }

  lemma ClipFileNameInjective(base: string, i: nat, j: nat)
    ensures ClipFileName(base, i) == ClipFileName(base, j) ==> i == j
  {
    if ClipFileName(base, i) == ClipFileName(base, j) {
      var a, b := NatToDecimal(i + 1), NatToDecimal(j + 1);
      var lo := |base| + 6;
      assert |a| == |b|;
      assert ClipFileName(base, i)[lo..lo + |a|] == a;
      assert ClipFileName(base, j)[lo..lo + |b|] == b;
      NatToDecimalInjective(i + 1, j + 1);
    }
  }

  /** `/videos/{job_id}/{clip_filename}` */
  function VideoUrl(jobId: string, fileName: string): string {
    "/videos/" + jobId + "/" + fileName
  }

  lemma VideoUrlInjective(jobId: string, f: string, g: string)
    ensures VideoUrl(jobId, f) == VideoUrl(jobId, g) ==> f == g
  {
    var n := |"/videos/" + jobId + "/"|;
    if VideoUrl(jobId, f) == VideoUrl(jobId, g) {
      assert VideoUrl(jobId, f)[n..] == f;
      assert VideoUrl(jobId, g)[n..] == g;
    }
  }

  /** The clip record for entry `i`: its file's locator, the YouTube title as
      title, the TikTok and Instagram descriptions, and the YouTube title
      again as YouTube description. */
  function ClipFor(jobId: string, base: string, i: nat, e: ClipEntry): (c: ClipResult)
    ensures c.videoUrl == VideoUrl(jobId, ClipFileName(base, i))
    ensures c.title == e.youtubeTitle && c.descriptionYoutube == e.youtubeTitle
    ensures c.descriptionTiktok == e.tiktokDescription && c.descriptionInstagram == e.instagramDescription
  {
    ClipResult(VideoUrl(jobId, ClipFileName(base, i)), e.youtubeTitle, e.tiktokDescription,
               e.instagramDescription, e.youtubeTitle)
  }

  /** A clip file is ready when it exists with a positive size. */
  predicate ClipReady(files: map<string, nat>, name: string) {
    name in files && files[name] > 0
  }

  /** For every entry index below `n`, whether its clip file is ready. */
  function ReadyMask(base: string, files: map<string, nat>, n: nat): (m: seq<bool>)
    ensures |m| == n && forall i :: 0 <= i < n ==> m[i] == ClipReady(files, ClipFileName(base, i))
  {
    seq(n, i requires 0 <= i < n => ClipReady(files, ClipFileName(base, i)))
  }

  // ------------------------------------------------------------- scanner

  /** What one pass of the scanner found. Only `Ready` leads to a write. */
  datatype ScanOutcome = NoMetadata | EmptyMetadata | Unreadable | NoneReady | Ready(clips: seq<ClipResult>)

  /** The clips of the entries whose files are ready, in entry order. */
  function ReadyClips(jobId: string, base: string, files: map<string, nat>, shorts: seq<ClipEntry>): seq<ClipResult>
    decreases |shorts|
  {
    if shorts == [] then []
    else
      var n := |shorts| - 1;
      ReadyClips(jobId, base, files, shorts[..n])
        + (if ClipReady(files, ClipFileName(base, n)) then [ClipFor(jobId, base, n, shorts[n])] else [])
  }

  /** The ready list holds exactly the entries whose clip file is ready, in
      entry order: its k-th clip is that of the k-th ready index. */
  lemma {:induction false} ReadyClipsExact(jobId: string, base: string, files: map<string, nat>, shorts: seq<ClipEntry>)
    ensures var idx := TrueIndices(ReadyMask(base, files, |shorts|));
      var r := ReadyClips(jobId, base, files, shorts);
      && |r| == |idx|
      && (forall k :: 0 <= k < |idx| ==> r[k] == ClipFor(jobId, base, idx[k], shorts[idx[k]]))
      && (forall i :: 0 <= i < |shorts| ==> (i in idx <==> ClipReady(files, ClipFileName(base, i))))
    decreases |shorts|
  {
    if shorts != [] {
      var n := |shorts| - 1;
      var prefix := shorts[..n];
      ReadyClipsExact(jobId, base, files, prefix);
      ReadyMaskStep(base, files, n);
      var idx' := TrueIndices(ReadyMask(base, files, n));
      var idx := TrueIndices(ReadyMask(base, files, n + 1));
      var r' := ReadyClips(jobId, base, files, prefix);
      var r := ReadyClips(jobId, base, files, shorts);
      assert r == r' + (if ClipReady(files, ClipFileName(base, n)) then [ClipFor(jobId, base, n, shorts[n])] else []);
      forall k | 0 <= k < |idx| ensures r[k] == ClipFor(jobId, base, idx[k], shorts[idx[k]]) {
        if k < |idx'| {
          assert r[k] == r'[k] && idx[k] == idx'[k];
          assert prefix[idx'[k]] == shorts[idx'[k]];
        } else {
          assert idx[k] == n;
        }
      }
    }
  }

  /** The ready indices below `n + 1`: those below `n`, then `n` if its clip is ready. */
  lemma ReadyMaskStep(base: string, files: map<string, nat>, n: nat)
    ensures TrueIndices(ReadyMask(base, files, n + 1))
         == TrueIndices(ReadyMask(base, files, n)) + (if ClipReady(files, ClipFileName(base, n)) then [n] else [])
  {
    var m := ReadyMask(base, files, n + 1);
    assert m[..n] == ReadyMask(base, files, n);
  }

  /** One pass of `check_partial_results_v2` over a snapshot. Every failure
      the pass catches (a metadata file that vanished, an undecodable
      descriptor) is `Unreadable`. */
  function Scan(jobId: string, snap: Snapshot): ScanOutcome {
    if snap.metadataFiles == [] then NoMetadata
    else
      var target := snap.metadataFiles[0];
      if target !in snap.files then Unreadable
      else if snap.files[target] == 0 then EmptyMetadata
      else match snap.descriptor
        case Malformed(_) => Unreadable
        case Parsed(shorts) =>
          var ready := ReadyClips(jobId, MetadataBase(target), snap.files, shorts);
          if ready == [] then NoneReady else Ready(ready)
  }

  /** The scanner writes nothing without a metadata file, with an empty one,
      or with no ready clip; when it reports clips, they are exactly the
      ready entries of the first metadata file, in order. */
  lemma ScanExact(jobId: string, snap: Snapshot)
    ensures snap.metadataFiles == [] ==> Scan(jobId, snap) == NoMetadata
    ensures snap.metadataFiles != [] && snap.metadataFiles[0] in snap.files && snap.files[snap.metadataFiles[0]] == 0
      ==> Scan(jobId, snap) == EmptyMetadata
    ensures Scan(jobId, snap).Ready? ==>
      var target := snap.metadataFiles[0];
      var base := MetadataBase(target);
      var shorts := snap.descriptor.shorts;
      var idx := TrueIndices(ReadyMask(base, snap.files, |shorts|));
      var clips := Scan(jobId, snap).clips;
      && snap.descriptor.Parsed? && target in snap.files && snap.files[target] > 0
      && 0 < |clips| == |idx|
      && (forall k :: 0 <= k < |idx| ==> clips[k] == ClipFor(jobId, base, idx[k], shorts[idx[k]]))
      && (forall i :: 0 <= i < |shorts| ==> (i in idx <==> ClipReady(snap.files, ClipFileName(base, i))))
    ensures Scan(jobId, snap) == NoneReady ==>
      var base := MetadataBase(snap.metadataFiles[0]);
      snap.descriptor.Parsed?
      && forall i :: 0 <= i < |snap.descriptor.shorts| ==> !ClipReady(snap.files, ClipFileName(base, i))
  {
    if snap.metadataFiles != [] && snap.descriptor.Parsed? {
      ReadyClipsExact(jobId, MetadataBase(snap.metadataFiles[0]), snap.files, snap.descriptor.shorts);
    }
  }

  /** The scanner's pass as the loop over the entries performs it. */
  method ScanPartialResults(jobId: string, snap: Snapshot) returns (outcome: ScanOutcome)
    ensures outcome == Scan(jobId, snap)
  {
    if snap.metadataFiles == [] {
      return NoMetadata;
    }
    var target := snap.metadataFiles[0];
    if target !in snap.files {
      return Unreadable;
    }
    if snap.files[target] == 0 {
      return EmptyMetadata;
    }
    if snap.descriptor.Malformed? {
      return Unreadable;
    }
    var base := MetadataBase(target);
    var clips := snap.descriptor.shorts;
    var ready: seq<ClipResult> := [];
    for i := 0 to |clips|
      invariant ready == ReadyClips(jobId, base, snap.files, clips[..i])
    {
      assert clips[..i + 1][..i] == clips[..i];
      var clipFilename := ClipFileName(base, i);
      if clipFilename in snap.files && snap.files[clipFilename] > 0 {
        ready := ready + [ClipFor(jobId, base, i, clips[i])];
      }
    }
    assert clips[..|clips|] == clips;
    if ready == [] {
      return NoneReady;
    }
    return Ready(ready);
  }

  // ----------------------------------------------------------- finalizer

  /** One clip per entry, in order, whether or not its file exists. */
  function FinalClipList(jobId: string, base: string, shorts: seq<ClipEntry>): (r: seq<ClipResult>)
    ensures |r| == |shorts| && forall i :: 0 <= i < |shorts| ==> r[i] == ClipFor(jobId, base, i, shorts[i])
  {
    seq(|shorts|, i requires 0 <= i < |shorts| => ClipFor(jobId, base, i, shorts[i]))
  }

  /** The finalizer's clips have pairwise distinct locators. */
  lemma FinalClipUrlsDistinct(jobId: string, base: string, shorts: seq<ClipEntry>)
    ensures var r := FinalClipList(jobId, base, shorts);
      forall i, j :: 0 <= i < j < |r| ==> r[i].videoUrl != r[j].videoUrl
  {
    var r := FinalClipList(jobId, base, shorts);
    forall i, j | 0 <= i < j < |r| ensures r[i].videoUrl != r[j].videoUrl {
      VideoUrlInjective(jobId, ClipFileName(base, i), ClipFileName(base, j));
      ClipFileNameInjective(base, i, j);
    }
  }

  /** Over the same descriptor, every clip the scanner reports is the
      finalizer's clip at the same entry index. */
  lemma ReadyClipsAreFinal(jobId: string, base: string, files: map<string, nat>, shorts: seq<ClipEntry>)
    ensures var idx := TrueIndices(ReadyMask(base, files, |shorts|));
      var r := ReadyClips(jobId, base, files, shorts);
      |r| == |idx| && forall k :: 0 <= k < |idx| ==> r[k] == FinalClipList(jobId, base, shorts)[idx[k]]
  {
    ReadyClipsExact(jobId, base, files, shorts);
  }

  /** The finalizer's clip list as its loop builds it. */
  method BuildFinalClips(jobId: string, base: string, shorts: seq<ClipEntry>) returns (clips: seq<ClipResult>)
    ensures |clips| == |shorts|
    ensures forall i :: 0 <= i < |shorts| ==> clips[i] == ClipFor(jobId, base, i, shorts[i])
  {
    clips := [];
    for i := 0 to |shorts|
      invariant |clips| == i
      invariant forall k :: 0 <= k < i ==> clips[k] == ClipFor(jobId, base, k, shorts[k])
    {
      clips := clips + [ClipFor(jobId, base, i, shorts[i])];
    }
  }

  const NoMetadataMessage: string := "No metadata file generated"

  /** What `json.load` raises on an empty file, as `str(e)` gives it. */
  const EmptyJsonMessage: string := "Expecting value: line 1 column 1 (char 0)"

  /** What `open` raises on a path that does not exist, as `str(e)` gives it. */
  function MissingFileMessage(path: string): string {
    "[Errno 2] No such file or directory: " + Repr(path)
  }

  /** What `finalize_job_v2` does with the final snapshot. */
  datatype Finalization = MissingMetadata | Raised(message: string) | Complete(clips: seq<ClipResult>)

  function Finalize(jobId: string, snap: Snapshot): Finalization {
    if snap.metadataFiles == [] then MissingMetadata
    else
      var target := snap.metadataFiles[0];
      if target !in snap.files then Raised(MissingFileMessage(OutputDir(jobId) + "/" + target))
      else if snap.files[target] == 0 then Raised(EmptyJsonMessage)
      else match snap.descriptor
        case Malformed(m) => Raised(m)
        case Parsed(shorts) => Complete(FinalClipList(jobId, MetadataBase(target), shorts))
  }

  /** The finalizer completes exactly when the scanner, on the same snapshot,
      gets as far as the descriptor's entries, and then every clip the scanner
      reports is the finalizer's clip for the same entry. Without a metadata
      file both give up; every other case raises in the finalizer. */
  lemma FinalizeMatchesScan(jobId: string, snap: Snapshot)
    ensures Finalize(jobId, snap).MissingMetadata? <==> Scan(jobId, snap) == NoMetadata
    ensures Finalize(jobId, snap).Complete? <==> Scan(jobId, snap).NoneReady? || Scan(jobId, snap).Ready?
    ensures Finalize(jobId, snap).Raised? <==> Scan(jobId, snap).EmptyMetadata? || Scan(jobId, snap).Unreadable?
    ensures Finalize(jobId, snap).Complete? ==>
      var base := MetadataBase(snap.metadataFiles[0]);
      var idx := TrueIndices(ReadyMask(base, snap.files, |snap.descriptor.shorts|));
      var r := ReadyClips(jobId, base, snap.files, snap.descriptor.shorts);
      |r| == |idx| && forall k :: 0 <= k < |idx| ==> r[k] == Finalize(jobId, snap).clips[idx[k]]
  {
    if Finalize(jobId, snap).Complete? {
      ReadyClipsAreFinal(jobId, MetadataBase(snap.metadataFiles[0]), snap.files, snap.descriptor.shorts);
    }
  }

  // ------------------------------------------------------------- command

  /** `os.path.join(OUTPUT_DIR, job_id)` */
  function OutputDir(jobId: string): string {
    "output/" + jobId
  }

  const StyleFlag: string := "--caption-style"
  const ColorFlag: string := "--caption-color"
  const OutlineFlag: string := "--caption-outline-color"

  /** The generator's command line: the fixed arguments, then the caption
      flags when captions are on: the style unless it is "none", each colour
      when it is a non-empty text. */
  function CommandFor(jobId: string, job: JobData): seq<string> {
    var s := job.captionSettings;
    ["python", "-u", "main.py", "-u", job.inputUrl, "-o", OutputDir(jobId)]
      + (if s.includeCaptions then
          (if s.style != NoCaptions then [StyleFlag, StyleValue(s.style)] else [])
          + (if Truthy(s.color) then [ColorFlag, s.color.value] else [])
          + (if Truthy(s.outlineColor) then [OutlineFlag, s.outlineColor.value] else [])
        else [])
  }

  /** The value given to `flag` in a list of flag-value pairs, if any. */
  function FlagValue(args: seq<string>, flag: string): Option<string>
    decreases |args|
  {
    if |args| < 2 then None
    else if args[0] == flag then Some(args[1])
    else FlagValue(args[2..], flag)
  }

  /** The order in which the caption flags are added. */
  function FlagRank(flag: string): nat {
    if flag == StyleFlag then 0 else if flag == ColorFlag then 1 else if flag == OutlineFlag then 2 else 3
  }

  lemma FlagValueCons(f: string, v: string, rest: seq<string>, flag: string)
    ensures FlagValue([f, v] + rest, flag) == if f == flag then Some(v) else FlagValue(rest, flag)
  {
    assert ([f, v] + rest)[2..] == rest;
  }

  /** After the seven fixed arguments come flag-value pairs: each caption flag
      at most once, in the order style, colour, outline, and each carrying
      exactly the setting it stands for. */
  lemma CommandFlags(jobId: string, job: JobData)
    ensures var cmd := CommandFor(jobId, job);
      var s := job.captionSettings;
      var flags := cmd[7..];
      && |cmd| >= 7
      && cmd[..7] == ["python", "-u", "main.py", "-u", job.inputUrl, "-o", OutputDir(jobId)]
      && |flags| % 2 == 0
      && (forall i, j :: 0 <= i < j < |flags| && i % 2 == 0 && j % 2 == 0 ==> FlagRank(flags[i]) < FlagRank(flags[j]))
      && FlagValue(flags, StyleFlag) == (if s.includeCaptions && s.style != NoCaptions then Some(StyleValue(s.style)) else None)
      && FlagValue(flags, ColorFlag) == (if s.includeCaptions && Truthy(s.color) then s.color else None)
      && FlagValue(flags, OutlineFlag) == (if s.includeCaptions && Truthy(s.outlineColor) then s.outlineColor else None)
  {
    var s := job.captionSettings;
    var cmd := CommandFor(jobId, job);
    var st: seq<string> := if s.style != NoCaptions then [StyleFlag, StyleValue(s.style)] else [];
    var co: seq<string> := if Truthy(s.color) then [ColorFlag, s.color.value] else [];
    var ou: seq<string> := if Truthy(s.outlineColor) then [OutlineFlag, s.outlineColor.value] else [];
    var flags := cmd[7..];
    if s.includeCaptions {
      assert flags == st + co + ou;
      if Truthy(s.outlineColor) {
        FlagValueCons(OutlineFlag, s.outlineColor.value, [], StyleFlag);
        FlagValueCons(OutlineFlag, s.outlineColor.value, [], ColorFlag);
        FlagValueCons(OutlineFlag, s.outlineColor.value, [], OutlineFlag);
      }
      if Truthy(s.color) {
        FlagValueCons(ColorFlag, s.color.value, ou, StyleFlag);
        FlagValueCons(ColorFlag, s.color.value, ou, ColorFlag);
        FlagValueCons(ColorFlag, s.color.value, ou, OutlineFlag);
      }
      assert co + ou == co + ou;
      if s.style != NoCaptions {
        FlagValueCons(StyleFlag, StyleValue(s.style), co + ou, StyleFlag);
        FlagValueCons(StyleFlag, StyleValue(s.style), co + ou, ColorFlag);
        FlagValueCons(StyleFlag, StyleValue(s.style), co + ou, OutlineFlag);
        assert st + co + ou == st + (co + ou);
      }
    } else {
      assert flags == [];
    }
  }

  /** The command as `run_job_v2` builds it, extending the list flag by flag. */
  method BuildCommand(jobId: string, job: JobData) returns (cmd: seq<string>)
    ensures cmd == CommandFor(jobId, job)
  {
    cmd := ["python", "-u", "main.py", "-u", job.inputUrl, "-o", OutputDir(jobId)];
    var settings := job.captionSettings;
    if settings.includeCaptions {
      var style := settings.style;
      if style != NoCaptions {
        cmd := cmd + [StyleFlag, StyleValue(style)];
      }
      if Truthy(settings.color) {
        cmd := cmd + [ColorFlag, settings.color.value];
      }
      if Truthy(settings.outlineColor) {
        cmd := cmd + [OutlineFlag, settings.outlineColor.value];
      }
    }
  }

  // ------------------------------------------------------ store updates

  /** The record after one non-empty log line: the line appended to the
      logs and, when the line classifies, the progress set to its value. */
  function LineEffect(j: JobData, line: string): (r: JobData)
    ensures r.logs == j.logs + [line]
    ensures ParseProgress(line).Some? ==>
      r.progressPercentage == ParseProgress(line).value.percentage
      && r.progressStage == Some(ParseProgress(line).value.stage)
    ensures ParseProgress(line).None? ==>
      r.progressPercentage == j.progressPercentage && r.progressStage == j.progressStage
    ensures r.(logs := j.logs, progressPercentage := j.progressPercentage, progressStage := j.progressStage) == j
  {
    var logged := j.(logs := j.logs + [line]);
    match ParseProgress(line)
    case None => logged
    case Some(p) => logged.(progressPercentage := p.percentage, progressStage := Some(p.stage))
  }

  /** The lines the reader logs: each line stripped, the empty ones dropped. */
  function LoggedLines(lines: seq<string>): seq<string>
    decreases |lines|
  {
    if lines == [] then []
    else LoggedLines(lines[..|lines| - 1]) + (if Strip(lines[|lines| - 1]) == "" then [] else [Strip(lines[|lines| - 1])])
  }

  /** The last element of `xs` that is present, if any. */
  function LastSome<T>(xs: seq<Option<T>>): Option<T>
    decreases |xs|
  {
    if xs == [] then None
    else if xs[|xs| - 1].Some? then xs[|xs| - 1]
    else LastSome(xs[..|xs| - 1])
  }

  /** `LastSome` is None exactly when no element is present. */
  lemma {:induction false} LastSomeNone<T>(xs: seq<Option<T>>)
    ensures LastSome(xs).None? <==> forall i :: 0 <= i < |xs| ==> xs[i].None?
    decreases |xs|
  {
    if xs != [] {
      var n := |xs| - 1;
      LastSomeNone(xs[..n]);
      assert forall i :: 0 <= i < n ==> xs[..n][i] == xs[i];
    }
  }

  /** `LastSome` picks an element that is present, after which none is. */
  lemma {:induction false} LastSomeIsLast<T>(xs: seq<Option<T>>) returns (i: nat)
    requires LastSome(xs).Some?
    ensures i < |xs| && xs[i] == LastSome(xs) && forall k :: i < k < |xs| ==> xs[k].None?
    decreases |xs|
  {
    var n := |xs| - 1;
    if xs[n].Some? {
      i := n;
    } else {
      i := LastSomeIsLast(xs[..n]);
      assert xs[i] == xs[..n][i];
      assert forall k :: i < k < n ==> xs[k] == xs[..n][k];
    }
  }

  lemma {:induction false} LastSomeAppend<T>(a: seq<Option<T>>, b: seq<Option<T>>)
    ensures LastSome(a + b) == if LastSome(b).Some? then LastSome(b) else LastSome(a)
    decreases |b|
  {
    if b != [] {
      assert (a + b)[..|a + b| - 1] == a + b[..|b| - 1];
      LastSomeAppend(a, b[..|b| - 1]);
    } else {
      assert a + b == a;
    }
  }

  /** The progress value of each logged line, None where it does not classify. */
  function Classified(logged: seq<string>): (r: seq<Option<Progress>>)
    ensures |r| == |logged| && forall i :: 0 <= i < |logged| ==> r[i] == ParseProgress(logged[i])
  {
    seq(|logged|, i requires 0 <= i < |logged| => ParseProgress(logged[i]))
  }

  /** The progress of the last logged line that classifies, if any. */
  function LastProgress(logged: seq<string>): Option<Progress> {
    LastSome(Classified(logged))
  }

  lemma LastProgressAppend(a: seq<string>, b: seq<string>)
    ensures LastProgress(a + b) == if LastProgress(b).Some? then LastProgress(b) else LastProgress(a)
  {
    assert Classified(a + b) == Classified(a) + Classified(b);
    LastSomeAppend(Classified(a), Classified(b));
  }

  /** The record after `logged` were logged in order: the logs extended by
      them, the progress that of the last one that classifies (unchanged when
      none does), nothing else changed. */
  function AfterLogged(j: JobData, logged: seq<string>): JobData {
    var p := LastProgress(logged);
    j.(logs := j.logs + logged,
       progressPercentage := if p.Some? then p.value.percentage else j.progressPercentage,
       progressStage := if p.Some? then Some(p.value.stage) else j.progressStage)
  }

  /** Logging one more line moves the record from one closed form to the next. */
  lemma AfterLoggedStep(j: JobData, logged: seq<string>, d: string)
    ensures LineEffect(AfterLogged(j, logged), d) == AfterLogged(j, logged + [d])
  {
    LastProgressAppend(logged, [d]);
    var c := Classified([d]);
    assert c[..0] == [] && c[0] == ParseProgress(d);
    assert LastSome(c) == if c[0].Some? then c[0] else LastSome(c[..0]);
  }

  /** One line of the generator's output after the reader decoded and
      stripped it: an empty line is skipped; otherwise it is logged, and its
      progress, if it has one, recorded. */
  method DeliverLine(store: JobStore.RedisJobStore, jobId: string, decoded: string, now: int)
    requires store.Valid()
    modifies store
    ensures store.Valid()
    ensures decoded == "" || old(store.Find(jobId, now)).None? ==> store.data == old(store.data)
    ensures decoded != "" && old(store.Find(jobId, now)).Some? ==>
      store.data == old(store.data)[Key(jobId) := Entry(LineEffect(old(store.Find(jobId, now)).value, decoded), now + JobTtlSeconds)]
  {
    if decoded != "" {
      store.AppendLog(jobId, decoded, now);
      var progress := ParseProgress(decoded);
      if progress.Some? {
        store.UpdateProgress(jobId, progress.value.percentage, Some(progress.value.stage), now);
      }
    }
  }

  /** The reader's pass over the lines one interval printed, all read at
      `now`: each line stripped of surrounding white space, then delivered.
      Only the job's own record is written; a record being processed stays
      so, and ends with the logged lines added as AfterLogged describes. */
  method DeliverLines(store: JobStore.RedisJobStore, jobId: string, lines: seq<string>, now: int,
                      ghost start: int, ghost error: Option<string>)
    requires store.Valid()
    modifies store
    ensures store.Valid()
    ensures store.data - {Key(jobId)} == old(store.data) - {Key(jobId)}
    ensures start <= now < start + JobTtlSeconds && old(Tracking(store, jobId, start, error)) ==>
      Tracking(store, jobId, start, error)
      && store.data[Key(jobId)].job == AfterLogged(old(store.data[Key(jobId)].job), LoggedLines(lines))
  {
    ghost var tracked := start <= now < start + JobTtlSeconds && Tracking(store, jobId, start, error);
    ghost var j0 := if Key(jobId) in store.data then store.data[Key(jobId)].job else NewJobData(jobId, "", DefaultCaptionSettings(), 0);
    assert lines[..0] == [];
    for l := 0 to |lines|
      invariant store.Valid()
      invariant store.data - {Key(jobId)} == old(store.data) - {Key(jobId)}
      invariant tracked ==> (Tracking(store, jobId, start, error)
        && store.data[Key(jobId)].job == AfterLogged(j0, LoggedLines(lines[..l])))
    {
      assert lines[..l + 1][..l] == lines[..l];
      var d := Strip(lines[l]);
      ghost var logged := LoggedLines(lines[..l]);
      assert LoggedLines(lines[..l + 1]) == logged + (if d == "" then [] else [d]);
      if tracked {
        assert store.Find(jobId, now) == Some(AfterLogged(j0, logged));
        AfterLoggedStep(j0, logged, d);
        if d == "" {
          assert logged + [] == logged;
        } else {
          TrackedWrite(store.data, jobId, start, error, LineEffect(AfterLogged(j0, logged), d), now);
        }
      }
      DeliverLine(store, jobId, d, now);
    }
    assert lines[..|lines|] == lines;
  }

  /** `check_partial_results_v2`: one scan, and the ready clips written as
      the job's result when there are any. */
  method CheckPartialResults(store: JobStore.RedisJobStore, jobId: string, snap: Snapshot, now: int) returns (outcome: ScanOutcome)
    requires store.Valid()
    modifies store
    ensures store.Valid()
    ensures outcome == Scan(jobId, snap)
    ensures !outcome.Ready? || old(store.Find(jobId, now)).None? ==> store.data == old(store.data)
    ensures outcome.Ready? && old(store.Find(jobId, now)).Some? ==>
      store.data == old(store.data)[Key(jobId) := Entry(
        old(store.Find(jobId, now)).value.(result := Some(NewJobResult(outcome.clips))), now + JobTtlSeconds)]
  {
    outcome := ScanPartialResults(jobId, snap);
    if outcome.Ready? {
      store.SetResult(jobId, NewJobResult(outcome.clips), now);
    }
  }

  /** `finalize_job_v2`: with a metadata file, the full clip list written as
      the result and then the job completed; without one, the job failed
      with the fixed message. Opening a metadata file that vanished, or
      decoding an empty or malformed one, raises before anything is written. */
  method FinalizeJob(store: JobStore.RedisJobStore, jobId: string, snap: Snapshot, now: int) returns (f: Finalization)
    requires store.Valid()
    modifies store
    ensures store.Valid()
    ensures f == Finalize(jobId, snap)
    ensures store.data - {Key(jobId)} == old(store.data) - {Key(jobId)}
    ensures f.Raised? || old(store.Find(jobId, now)).None? ==> store.data == old(store.data)
    ensures f.Complete? && old(store.Find(jobId, now)).Some? ==>
      var j := old(store.Find(jobId, now)).value;
      store.data == old(store.data)[Key(jobId) := Entry(
        WithStatus(j.(result := Some(NewJobResult(f.clips))), Completed, None, now), now + JobTtlSeconds)]
    ensures f.MissingMetadata? && old(store.Find(jobId, now)).Some? ==>
      store.data == old(store.data)[Key(jobId) := Entry(
        WithStatus(old(store.Find(jobId, now)).value, Failed, Some(NoMetadataMessage), now), now + JobTtlSeconds)]
  {
    if snap.metadataFiles == [] {
      store.SetStatus(jobId, Failed, Some(NoMetadataMessage), now);
      return MissingMetadata;
    }
    var target := snap.metadataFiles[0];
    if target !in snap.files {
      return Raised(MissingFileMessage(OutputDir(jobId) + "/" + target));
    }
    if snap.files[target] == 0 {
      return Raised(EmptyJsonMessage);
    }
    if snap.descriptor.Malformed? {
      return Raised(snap.descriptor.message);
    }
    var base := MetadataBase(target);
    var clips := BuildFinalClips(jobId, base, snap.descriptor.shorts);
    assert clips == FinalClipList(jobId, base, snap.descriptor.shorts);
    ghost var before := store.Find(jobId, now);
    store.SetResult(jobId, NewJobResult(clips), now);
    assert before.Some? ==> store.Find(jobId, now) == Some(before.value.(result := Some(NewJobResult(clips))));
    store.SetStatus(jobId, Completed, None, now);
    return Complete(clips);
  }

  // ---------------------------------------------------------- resolution

  /** `f"Process failed with exit code {code}"` */
  function ExitMessage(code: int): string {
    "Process failed with exit code " + IntToDecimal(code)
  }

  /** The message names the exit code: distinct codes give distinct messages. */
  lemma ExitMessageInjective(a: int, b: int)
    ensures ExitMessage(a) == ExitMessage(b) ==> a == b
  {
    var n := |"Process failed with exit code "|;
    if ExitMessage(a) == ExitMessage(b) {
      assert ExitMessage(a)[n..] == IntToDecimal(a);
      assert ExitMessage(b)[n..] == IntToDecimal(b);
      IntToDecimalInjective(a, b);
    }
  }

  /** One poll interval of a running generator: the lines it printed, as
      decoded and before the reader strips them, then the state of the
      output directory when the scan ran. */
  datatype Tick = Tick(time: int, lines: seq<string>, snapshot: Snapshot)

  /** A run of the generator: either starting it raised, or it ran through
      the given poll intervals and exited with a code at `exitTime`, leaving
      the output directory as `final`. */
  datatype ProcessRun =
    | SpawnFailed(message: string)
    | Exited(ticks: seq<Tick>, exitCode: int, exitTime: int, final: Snapshot)

  /** How a run ends: the final status, the error passed with it, and the
      clips written as the final result, if any. */
  datatype Resolution = Resolution(status: JobStatus, error: Option<string>, clips: Option<seq<ClipResult>>)

  function ExitResolution(jobId: string, code: int, final: Snapshot): Resolution {
    if code != 0 then Resolution(Failed, Some(ExitMessage(code)), None)
    else match Finalize(jobId, final)
      case MissingMetadata => Resolution(Failed, Some(NoMetadataMessage), None)
      case Raised(m) => Resolution(Failed, Some(m), None)
      case Complete(clips) => Resolution(Completed, None, Some(clips))
  }

  /** The resolution `run_job_v2` reaches for a run. */
  function ResolveRun(jobId: string, run: ProcessRun): Resolution {
    match run
    case SpawnFailed(m) => Resolution(Failed, Some(m), None)
    case Exited(_, code, _, final) => ExitResolution(jobId, code, final)
  }

  /** Every run ends in a terminal status: completed exactly when the
      generator exited with 0 and left a non-empty, decodable metadata file,
      with one clip per descriptor entry; otherwise failed with the
      exception's message, the exit-code message or the missing-metadata
      message. */
  lemma ResolveRunCases(jobId: string, run: ProcessRun)
    ensures IsTerminal(ResolveRun(jobId, run).status)
    ensures ResolveRun(jobId, run).status == Completed <==>
      && run.Exited? && run.exitCode == 0 && run.final.metadataFiles != []
      && ClipReady(run.final.files, run.final.metadataFiles[0]) && run.final.descriptor.Parsed?
    ensures ResolveRun(jobId, run).status == Completed ==>
      ResolveRun(jobId, run).error.None? && ResolveRun(jobId, run).clips.Some?
      && |ResolveRun(jobId, run).clips.value| == |run.final.descriptor.shorts|
    ensures ResolveRun(jobId, run).status == Failed ==> ResolveRun(jobId, run).clips.None?
    ensures run.SpawnFailed? ==> ResolveRun(jobId, run).error == Some(run.message)
    ensures run.Exited? && run.exitCode != 0 ==> ResolveRun(jobId, run).error == Some(ExitMessage(run.exitCode))
    ensures run.Exited? && run.exitCode == 0 && run.final.metadataFiles == [] ==>
      ResolveRun(jobId, run).error == Some(NoMetadataMessage)
    ensures (run.Exited? && run.exitCode == 0 && run.final.metadataFiles != []
             && run.final.metadataFiles[0] !in run.final.files) ==>
      ResolveRun(jobId, run).error == Some(MissingFileMessage(OutputDir(jobId) + "/" + run.final.metadataFiles[0]))
    ensures (run.Exited? && run.exitCode == 0 && run.final.metadataFiles != []
             && run.final.metadataFiles[0] in run.final.files && run.final.files[run.final.metadataFiles[0]] == 0) ==>
      ResolveRun(jobId, run).error == Some(EmptyJsonMessage)
  {
  }

  /** The end of a run: the moment its final status is written. */
  function EndTime(run: ProcessRun, start: int): int {
    match run
    case SpawnFailed(_) => start
    case Exited(_, _, exitTime, _) => exitTime
  }

  /** Every moment of the run falls within the record lifetime the first
      write of the run gives it. */
  predicate TicksWithin(ticks: seq<Tick>, start: int) {
    forall i :: 0 <= i < |ticks| ==> start <= ticks[i].time < start + JobTtlSeconds
  }

  predicate RunWithin(run: ProcessRun, start: int) {
    match run
    case SpawnFailed(_) => true
    case Exited(ticks, _, exitTime, _) => TicksWithin(ticks, start) && start <= exitTime < start + JobTtlSeconds
  }

  /** The record of `jobId` is being processed since `start`, is live until
      at least `start` plus the lifetime, and carries `error`. */
  ghost predicate Tracking(store: JobStore.RedisJobStore, jobId: string, start: int, error: Option<string>)
    reads store
  {
    TrackedIn(store.data, jobId, start, error)
  }

  predicate TrackedIn(data: map<string, Entry>, jobId: string, start: int, error: Option<string>) {
    var k := Key(jobId);
    && k in data
    && data[k].expiresAt >= start + JobTtlSeconds
    && data[k].job.jobId == jobId
    && data[k].job.status == Processing
    && data[k].job.startedAt == Some(start)
    && data[k].job.error == error
  }

  /** Rewriting a tracked record, during its lifetime, with one that keeps
      its id, status, start and error keeps it tracked and touches no other key. */
  lemma TrackedWrite(data: map<string, Entry>, jobId: string, start: int, error: Option<string>, j: JobData, now: int)
    requires TrackedIn(data, jobId, start, error) && start <= now
    requires j.jobId == jobId && j.status == Processing && j.startedAt == Some(start) && j.error == error
    ensures TrackedIn(data[Key(jobId) := Entry(j, now + JobTtlSeconds)], jobId, start, error)
    ensures data[Key(jobId) := Entry(j, now + JobTtlSeconds)] - {Key(jobId)} == data - {Key(jobId)}
  {
  }

  /** The record of `jobId` as read at `end` carries the resolution: its
      status, the start and end times, the error when it is a non-empty
      text (the earlier error otherwise) and the final clips, if any. */
  predicate ConcludedIn(data: map<string, Entry>, jobId: string, start: int, end: int,
                        error: Option<string>, res: Resolution)
  {
    var k := Key(jobId);
    && k in data
    && end < data[k].expiresAt
    && data[k].job.status == res.status
    && data[k].job.startedAt == Some(start)
    && data[k].job.completedAt == Some(end)
    && data[k].job.error == (if Truthy(res.error) then res.error else error)
    && (res.clips.Some? ==> data[k].job.result == Some(NewJobResult(res.clips.value)))
  }

  ghost predicate Concluded(store: JobStore.RedisJobStore, jobId: string, start: int, end: int,
                            error: Option<string>, res: Resolution)
    reads store
  {
    ConcludedIn(store.data, jobId, start, end, error, res)
  }

  /** Writing a terminal status into a tracked record during its lifetime
      concludes it with that resolution, and touches no other key. */
  lemma ConcludeWrite(data: map<string, Entry>, jobId: string, start: int, error: Option<string>,
                      j: JobData, res: Resolution, now: int)
    requires TrackedIn(data, jobId, start, error) && start <= now
    requires j.startedAt == Some(start) && j.error == error && IsTerminal(res.status)
    requires res.clips.Some? ==> j.result == Some(NewJobResult(res.clips.value))
    ensures ConcludedIn(data[Key(jobId) := Entry(WithStatus(j, res.status, res.error, now), now + JobTtlSeconds)],
                        jobId, start, now, error, res)
    ensures data[Key(jobId) := Entry(WithStatus(j, res.status, res.error, now), now + JobTtlSeconds)] - {Key(jobId)}
            == data - {Key(jobId)}
  {
  }

  /** The lines the reader logs over the poll intervals, in order. */
  function TickLines(ticks: seq<Tick>): seq<string>
    decreases |ticks|
  {
    if ticks == [] then [] else TickLines(ticks[..|ticks| - 1]) + LoggedLines(ticks[|ticks| - 1].lines)
  }

  /** For each interval, the clips its scan found, None where it found none. */
  function ScanFinds(jobId: string, ticks: seq<Tick>): (r: seq<Option<seq<ClipResult>>>)
    ensures |r| == |ticks|
    ensures forall i :: 0 <= i < |ticks| ==>
      r[i] == if Scan(jobId, ticks[i].snapshot).Ready? then Some(Scan(jobId, ticks[i].snapshot).clips) else None
  {
    seq(|ticks|, i requires 0 <= i < |ticks| =>
      if Scan(jobId, ticks[i].snapshot).Ready? then Some(Scan(jobId, ticks[i].snapshot).clips) else None)
  }

  /** The clips of the last partial scan that found any, if one did. */
  function LastReady(jobId: string, ticks: seq<Tick>): Option<seq<ClipResult>> {
    LastSome(ScanFinds(jobId, ticks))
  }

  /** The record after the poll intervals: the logs extended by every logged
      line of every interval, in order; the progress that of the last of them
      that classifies; the result the clips of the last scan that found any
      (unchanged when none did); nothing else changed. */
  function AfterTicks(j: JobData, jobId: string, ticks: seq<Tick>): JobData {
    var c := LastReady(jobId, ticks);
    AfterLogged(j, TickLines(ticks)).(result := if c.Some? then Some(NewJobResult(c.value)) else j.result)
  }

  lemma AfterLoggedAppend(j: JobData, a: seq<string>, b: seq<string>)
    ensures AfterLogged(AfterLogged(j, a), b) == AfterLogged(j, a + b)
  {
    LastProgressAppend(a, b);
    assert j.logs + a + b == j.logs + (a + b);
  }

  /** One more interval, its lines and then its scan, moves the record from
      one closed form to the next. */
  lemma AfterTicksStep(j: JobData, jobId: string, ticks: seq<Tick>, t: Tick)
    ensures var mid := AfterLogged(AfterTicks(j, jobId, ticks), LoggedLines(t.lines));
      var out := Scan(jobId, t.snapshot);
      AfterTicks(j, jobId, ticks + [t]) == if out.Ready? then mid.(result := Some(NewJobResult(out.clips))) else mid
  {
    var all := ticks + [t];
    assert all[..|all| - 1] == ticks;
    AfterLoggedAppend(j, TickLines(ticks), LoggedLines(t.lines));
    var found := ScanFinds(jobId, [t]);
    assert ScanFinds(jobId, all) == ScanFinds(jobId, ticks) + found;
    LastSomeAppend(ScanFinds(jobId, ticks), found);
    assert found[..0] == [];
  }

  /** The poll loop of `run_job_v2`: each interval's output lines, then a
      partial scan. Only the job's own record is written; a record being
      processed stays so, and ends as AfterTicks describes. */
  method Monitor(store: JobStore.RedisJobStore, jobId: string, ticks: seq<Tick>, ghost start: int, ghost error: Option<string>)
    requires store.Valid()
    modifies store
    ensures store.Valid()
    ensures store.data - {Key(jobId)} == old(store.data) - {Key(jobId)}
    ensures TicksWithin(ticks, start) && old(Tracking(store, jobId, start, error)) ==>
      Tracking(store, jobId, start, error)
      && store.data[Key(jobId)].job == AfterTicks(old(store.data[Key(jobId)].job), jobId, ticks)
  {
    ghost var tracked := TicksWithin(ticks, start) && Tracking(store, jobId, start, error);
    ghost var j0 := if Key(jobId) in store.data then store.data[Key(jobId)].job else NewJobData(jobId, "", DefaultCaptionSettings(), 0);
    assert ticks[..0] == [];
    for i := 0 to |ticks|
      invariant store.Valid()
      invariant store.data - {Key(jobId)} == old(store.data) - {Key(jobId)}
      invariant tracked ==> (Tracking(store, jobId, start, error)
        && store.data[Key(jobId)].job == AfterTicks(j0, jobId, ticks[..i]))
    {
      var tick := ticks[i];
      assert ticks[..i + 1] == ticks[..i] + [tick];
      AfterTicksStep(j0, jobId, ticks[..i], tick);
      DeliverLines(store, jobId, tick.lines, tick.time, start, error);
      ghost var mid := store.data;
      var outcome := CheckPartialResults(store, jobId, tick.snapshot, tick.time);
      if tracked && outcome.Ready? {
        TrackedWrite(mid, jobId, start, error, mid[Key(jobId)].job.(result := Some(NewJobResult(outcome.clips))), tick.time);
      }
    }
    assert ticks[..|ticks|] == ticks;
  }

  /** Exit code 0: finalize, and fail the job with the message of an
      exception finalizing raised. */
  method FinishSuccess(store: JobStore.RedisJobStore, jobId: string, final: Snapshot, now: int,
                       ghost start: int, ghost error: Option<string>) returns (res: Resolution)
    requires store.Valid()
    modifies store
    ensures store.Valid()
    ensures res == ExitResolution(jobId, 0, final)
    ensures store.data - {Key(jobId)} == old(store.data) - {Key(jobId)}
    ensures start <= now < start + JobTtlSeconds && old(Tracking(store, jobId, start, error)) ==>
      Concluded(store, jobId, start, now, error, res)
  {
    ghost var d0 := store.data;
    ghost var live := start <= now < start + JobTtlSeconds && Tracking(store, jobId, start, error);
    var f := FinalizeJob(store, jobId, final, now);
    match f {
      case MissingMetadata =>
        res := Resolution(Failed, Some(NoMetadataMessage), None);
        if live {
          ConcludeWrite(d0, jobId, start, error, d0[Key(jobId)].job, res, now);
        }
      case Raised(m) =>
        assert store.data == d0;
        store.SetStatus(jobId, Failed, Some(m), now);
        res := Resolution(Failed, Some(m), None);
        if live {
          ConcludeWrite(d0, jobId, start, error, d0[Key(jobId)].job, res, now);
        }
      case Complete(clips) =>
        res := Resolution(Completed, None, Some(clips));
        if live {
          ConcludeWrite(d0, jobId, start, error, d0[Key(jobId)].job.(result := Some(NewJobResult(clips))), res, now);
        }
    }
  }

  /** After the process exited: finalize on exit code 0, otherwise fail with
      the exit-code message. */
  method Conclude(store: JobStore.RedisJobStore, jobId: string, code: int, final: Snapshot, now: int,
                  ghost start: int, ghost error: Option<string>) returns (res: Resolution)
    requires store.Valid()
    modifies store
    ensures store.Valid()
    ensures res == ExitResolution(jobId, code, final)
    ensures store.data - {Key(jobId)} == old(store.data) - {Key(jobId)}
    ensures start <= now < start + JobTtlSeconds && old(Tracking(store, jobId, start, error)) ==>
      Concluded(store, jobId, start, now, error, res)
  {
    if code == 0 {
      res := FinishSuccess(store, jobId, final, now, start, error);
    } else {
      store.SetStatus(jobId, Failed, Some(ExitMessage(code)), now);
      res := Resolution(Failed, Some(ExitMessage(code)), None);
    }
  }

  /** The first two writes of `run_job_v2`: the job marked processing, then
      the start logged. */
  method BeginJob(store: JobStore.RedisJobStore, jobId: string, start: int)
    requires store.Valid()
    modifies store
    ensures store.Valid()
    ensures store.data - {Key(jobId)} == old(store.data) - {Key(jobId)}
    ensures old(store.Find(jobId, start)).None? ==> store.data == old(store.data)
    ensures old(store.Find(jobId, start)).Some? ==>
      var j := WithStatus(old(store.Find(jobId, start)).value, Processing, None, start);
      && store.data == old(store.data)[Key(jobId) := Entry(j.(logs := j.logs + ["Job started by worker."]), start + JobTtlSeconds)]
      && Tracking(store, jobId, start, old(store.Find(jobId, start)).value.error)
  {
    store.SetStatus(jobId, Processing, None, start);
    store.AppendLog(jobId, "Job started by worker.", start);
  }

  /** The guarded part of `run_job_v2`: start the generator, poll it, and
      resolve its exit; an exception fails the job with its message. */
  method ExecuteRun(store: JobStore.RedisJobStore, jobId: string, run: ProcessRun, start: int,
                    ghost error: Option<string>) returns (res: Resolution)
    requires store.Valid()
    modifies store
    ensures store.Valid()
    ensures res == ResolveRun(jobId, run)
    ensures store.data - {Key(jobId)} == old(store.data) - {Key(jobId)}
    ensures RunWithin(run, start) && old(Tracking(store, jobId, start, error)) ==>
      Concluded(store, jobId, start, EndTime(run, start), error, res)
  {
    match run {
      case SpawnFailed(m) =>
        store.SetStatus(jobId, Failed, Some(m), start);
        res := Resolution(Failed, Some(m), None);
      case Exited(ticks, code, exitTime, final) =>
        Monitor(store, jobId, ticks, start, error);
        res := Conclude(store, jobId, code, final, exitTime, start, error);
    }
  }

  // -------------------------------------------------------------- worker

  /** The command line and the API key in the environment of the generator. */
  datatype Launch = Launch(command: seq<string>, apiKey: Option<string>)

  /** The record `process_v2` stores for a new job: queued, with one log line. */
  function QueuedJob(jobId: string, url: string, settings: CaptionSettings, now: int): (j: JobData)
    ensures j.jobId == jobId && j.inputUrl == url && j.captionSettings == settings && j.createdAt == now
    ensures j.status == Queued && j.progressPercentage == 0 && j.progressStage.None?
    ensures j.logs == ["Job " + jobId + " queued."]
    ensures j.startedAt.None? && j.completedAt.None? && j.result.None? && j.error.None?
  {
    NewJobData(jobId, url, settings, now).(logs := ["Job " + jobId + " queued."])
  }

  /** The v2 queue worker: a FIFO of job ids, the job taken off it that waits
      for a slot, the slot counter of the shared semaphore with the jobs
      holding slots, and the API keys kept in memory beside the store. */
  class Worker {
    const store: JobStore.RedisJobStore
    const capacity: nat
    var inUse: nat
    var queue: seq<string>
    var pending: Option<string>
    var running: multiset<string>
    var apiKeys: map<string, string>

    /** Each slot in use is held by one running job, and no more than the
        capacity are in use. */
    ghost predicate Valid()
      reads this, store
    {
      store.Valid() && inUse == |running| && inUse <= capacity
    }

    constructor (store: JobStore.RedisJobStore, capacity: nat)
      requires store.Valid()
      ensures Valid()
      ensures this.store == store && this.capacity == capacity
      ensures inUse == 0 && queue == [] && pending.None? && running == multiset{} && apiKeys == map[]
    {
      this.store := store;
      this.capacity := capacity;
      inUse := 0;
      queue := [];
      pending := None;
      running := multiset{};
      apiKeys := map[];
    }

    /** The state change of `process_v2` once it has validated the request:
        the record stored, the key kept in memory, the id queued. */
    method Enqueue(job: JobData, apiKey: string, now: int)
      requires Valid()
      modifies this, store
      ensures Valid()
      ensures store.data == old(store.data)[Key(job.jobId) := Entry(job, now + JobTtlSeconds)]
      ensures apiKeys == old(apiKeys)[job.jobId := apiKey]
      ensures queue == old(queue) + [job.jobId]
      ensures pending == old(pending) && inUse == old(inUse) && running == old(running)
    {
      store.CreateJob(job, now);
      apiKeys := apiKeys[job.jobId := apiKey];
      queue := queue + [job.jobId];
    }

    /** One turn of `process_queue_v2`, up to where it would block: take the
        next id off the queue unless one is already waiting, then acquire a
        slot for it if one is free and start its wrapper. */
    method DispatchStep() returns (started: Option<string>)
      requires Valid()
      modifies this
      ensures Valid()
      ensures var waiting := if old(pending).Some? then old(pending)
                             else if old(queue) != [] then Some(old(queue)[0]) else None;
        && queue == (if old(pending).None? && old(queue) != [] then old(queue)[1..] else old(queue))
        && apiKeys == old(apiKeys)
        && (if waiting.Some? && old(inUse) < capacity then
              started == waiting && pending.None?
              && inUse == old(inUse) + 1 && running == old(running) + multiset{waiting.value}
            else
              started.None? && pending == waiting && inUse == old(inUse) && running == old(running))
    {
      if pending.None? && queue != [] {
        pending := Some(queue[0]);
        queue := queue[1..];
      }
      if pending.Some? && inUse < capacity {
        started := pending;
        running := running + multiset{pending.value};
        inUse := inUse + 1;
        pending := None;
      } else {
        started := None;
      }
    }

    /** `run_job_v2`: mark the job processing, log the start, build the
        command, run the generator, resolve its exit, and in every case drop
        the job's API key. Only the job's own record is written; when the
        run stays within the record's lifetime, the record read at the end
        carries the resolution. */
    method RunJobV2(jobId: string, job: JobData, run: ProcessRun, start: int) returns (launch: Launch, res: Resolution)
      requires Valid()
      modifies this, store
      ensures Valid()
      ensures apiKeys == old(apiKeys) - {jobId}
      ensures queue == old(queue) && pending == old(pending) && inUse == old(inUse) && running == old(running)
      ensures launch.command == CommandFor(jobId, job)
      ensures launch.apiKey == (if jobId in old(apiKeys) then Some(old(apiKeys)[jobId]) else None)
      ensures res == ResolveRun(jobId, run)
      ensures store.data - {Key(jobId)} == old(store.data) - {Key(jobId)}
      ensures old(store.Find(jobId, start)).Some? && RunWithin(run, start) ==>
        Concluded(store, jobId, start, EndTime(run, start), old(store.Find(jobId, start)).value.error, res)
    {
      ghost var before := store.Find(jobId, start);
      ghost var error := if before.Some? then before.value.error else None;
      BeginJob(store, jobId, start);
      var cmd := BuildCommand(jobId, job);
      launch := Launch(cmd, if jobId in apiKeys then Some(apiKeys[jobId]) else None);
      res := ExecuteRun(store, jobId, run, start, error);
      apiKeys := apiKeys - {jobId};
    }

    /** `run_job_v2_wrapper`: with the store reachable and the job's record
        present, run the job; in every case release the job's slot. Only the
        job's record is written, and when the job ran within the record's
        lifetime, the record read at the end carries the resolution. */
    method RunJobWrapper(jobId: string, storeAvailable: bool, run: ProcessRun, start: int) returns (res: Option<Resolution>)
      requires Valid() && jobId in running
      modifies this, store
      ensures Valid()
      ensures running == old(running) - multiset{jobId} && inUse == old(inUse) - 1
      ensures queue == old(queue) && pending == old(pending)
      ensures res.Some? <==> storeAvailable && old(store.Find(jobId, start)).Some?
      ensures res.Some? ==> res.value == ResolveRun(jobId, run) && apiKeys == old(apiKeys) - {jobId}
      ensures res.None? ==> apiKeys == old(apiKeys) && store.data == old(store.data)
      ensures store.data - {Key(jobId)} == old(store.data) - {Key(jobId)}
      ensures res.Some? && RunWithin(run, start) ==>
        Concluded(store, jobId, start, EndTime(run, start), old(store.Find(jobId, start)).value.error, res.value)
    {
      res := None;
      if storeAvailable {
        var job := store.GetJob(jobId, start);
        if job.Some? {
          var _, r := RunJobV2(jobId, job.value, run, start);
          res := Some(r);
        }
      }
      running := running - multiset{jobId};
      inUse := inUse - 1;
    }
  }
}
