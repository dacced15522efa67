/** backend_processor.py: one render attempt (_render_manim_video) and the
    plan, code, render and repair pipeline around it (process_prompt_to_video). */
module BackendProcessor {
  import opened Text
  import opened Files
  import opened Host

  /** How many times a job tries to render before it gives up. */
  const MaxDebugAttempts: nat := 3

  /** The four qualities a user may pick. */
  const Qualities: set<string> := {"480p", "720p", "1080p", "2160p"}

  /** Quality to manim's command-line flag. */
  const QualityFlags: map<string, string> :=
    map["480p" := "-ql", "720p" := "-qm", "1080p" := "-qh", "2160p" := "-qk"]

  /** Quality to the folder manim writes that quality's videos into. */
  const QualityFolders: map<string, string> :=
    map["480p" := "480p15", "720p" := "720p30", "1080p" := "1080p60", "2160p" := "2160p60"]

  const SceneName := "GeneratedScene"
  const NoVideoMessage := "Manim executed successfully but did not produce a video file."
  const UnexpectedExitMessage := "Exited the debug loop unexpectedly."

  // ---------------------------------------------------------------------------
  // The quality tables and the render command

  /** Both tables are total over the same four qualities, so a quality that
      passed the flag lookup also finds its output folder. */
  lemma QualityTablesAgree()
    ensures QualityFlags.Keys == Qualities && QualityFolders.Keys == Qualities
  {
  }

  /** No two qualities share a flag or a folder. */
  lemma QualityTablesInjective()
    ensures forall a, b :: a in QualityFlags && b in QualityFlags && QualityFlags[a] == QualityFlags[b] ==> a == b
    ensures forall a, b :: a in QualityFolders && b in QualityFolders && QualityFolders[a] == QualityFolders[b] ==> a == b
  {
  }

  /** The manim argument vector for a script, a quality and a media directory. */
  function RenderCommand(script: string, quality: string, mediaDir: string): seq<string>
    requires quality in QualityFlags
  {
    ["manim", script, SceneName, "--format=mp4", QualityFlags[quality], "--media_dir", mediaDir]
  }

  /** The command pins down what is rendered: script, quality and media
      directory can all be read back from it. */
  lemma RenderCommandInjective(s1: string, q1: string, m1: string, s2: string, q2: string, m2: string)
    requires q1 in QualityFlags && q2 in QualityFlags
    ensures RenderCommand(s1, q1, m1) == RenderCommand(s2, q2, m2) <==> s1 == s2 && q1 == q2 && m1 == m2
  {
    if RenderCommand(s1, q1, m1) == RenderCommand(s2, q2, m2) {
      assert RenderCommand(s1, q1, m1)[4] == RenderCommand(s2, q2, m2)[4];
      QualityTablesInjective();
    }
  }

  /** Where manim leaves the videos of a script: media/videos/<script stem>/<folder>. */
  function VideoDir(media: Path, script: Path, quality: string): Path
    requires script != [] && quality in QualityFolders
  {
    media + ["videos", PathStem(Name(script)), QualityFolders[quality]]
  }

  /** The name the copy in durable storage gets: the video's root, an
      underscore, the whole seconds of the clock, and ".mp4". */
  function UniqueFilename(videoName: string, now: real): string
  {
    SplitextRoot(videoName) + "_" + IntToString(Trunc(now)) + ".mp4"
  }

  /** For a video manim named <base>.mp4 the copy is <base>_<seconds>.mp4. */
  lemma UniqueFilenameOfGlobMatch(name: string, now: real)
    requires GlobMp4(name) && !AllDots(name[..|name| - 4])
    ensures UniqueFilename(name, now) == name[..|name| - 4] + "_" + IntToString(Trunc(now)) + ".mp4"
  {
    SplitextOfGlobMatch(name);
  }

  /** Copies of one video made in different seconds get different names. */
  lemma UniqueFilenameSeparatesSeconds(name: string, t1: real, t2: real)
    ensures UniqueFilename(name, t1) == UniqueFilename(name, t2) <==> Trunc(t1) == Trunc(t2)
  {
    var root := SplitextRoot(name) + "_";
    var a, b := IntToString(Trunc(t1)), IntToString(Trunc(t2));
    var s1, s2 := root + a + ".mp4", root + b + ".mp4";
    if s1 == s2 {
      assert |a| == |b|;
      assert a == s1[|root|..|root| + |a|];
      assert b == s2[|root|..|root| + |b|];
    }
    IntToStringInjective(Trunc(t1), Trunc(t2));
  }

  // ---------------------------------------------------------------------------
  // _render_manim_video

  /** mkdir(exist_ok=True) on dir succeeds: nothing is there yet, or a
      directory is. */
  predicate MkdirOk(fs: FileMap, dir: Path) {
    dir !in fs || fs[dir].Directory?
  }

  /** A render attempt gets past the workspace and the flag lookup into the
      try region, where the script's removal is guaranteed. */
  predicate ReachesTry(fs: FileMap, media: Path, quality: string) {
    MkdirOk(fs, media) && quality in QualityFlags
  }

  /** What the try region of a render attempt yields for a run, given the
      videos then found: the launch error; stderr verbatim on a non-zero exit;
      the fixed "no video" error; or one of the videos found. */
  predicate RenderOutcome(run: ProcessRun, videos: set<Path>, r: Result<Path>) {
    match run
    case LaunchFailed(e) => r == Err(e)
    case Exited(code, stderr, _, _) =>
      if code != 0 then r == Err(RuntimeError(stderr))
      else if videos == {} then r == Err(FileNotFoundError(NoVideoMessage))
      else r.Ok? && r.value in videos
  }

  /** A script path tempfile may hand out in dir. */
  predicate ScriptPathIn(script: Path, dir: Path) {
    |script| == |dir| + 1 && script[..|dir|] == dir &&
    var name := Name(script);
    |name| >= 3 && name[|name| - 3..] == ".py" && TempStem(name[..|name| - 3])
  }

  lemma ScriptOutsideMedia(h: Machine, script: Path)
    requires h.Valid() && ScriptPathIn(script, h.tempDir)
    ensures !Under(script, h.MediaDir()) && script != h.MediaDir()
  {
  }

  /** How a render attempt ends, from the filesystem fs before it, the script
      path tempfile picked and the run manim would make: the new filesystem
      fs' and the result r. The script is written first; a file in the
      workspace's place or an unknown quality stops the attempt before manim
      runs and leaves the script behind; otherwise the try region runs and
      its finally removes the script. */
  predicate Rendered(fs: FileMap, fs': FileMap, media: Path, script: Path, code: string,
                     quality: string, now: real, run: ProcessRun, r: Result<Path>)
  {
    var fs1 := fs[script := RegularFile(code, now)];
    if !MkdirOk(fs, media) then
      r == Err(OSError(17, "File exists", media)) && fs' == fs1
    else if quality !in QualityFlags then
      r == Err(KeyError(quality)) && fs' == fs1[media := Directory]
    else
      var produced := AfterRun(fs1[media := Directory], run);
      script != [] && quality in QualityFolders && fs' == produced - {script} &&
      RenderOutcome(run, Mp4Files(produced, VideoDir(media, script, quality)), r)
  }

  /** The manim runs a render attempt starts: one, with the command for its
      script, when it gets into the try region; none otherwise. */
  function RenderCalls(fs: FileMap, media: Path, script: Path, code: string, quality: string): seq<RenderCall>
  {
    if ReachesTry(fs, media, quality) then [RenderCall(RenderCommand(PathString(script), quality, PathString(media)), code)]
    else []
  }

  /** The try region of a render attempt and its finally: run manim on the
      script, look for the video, and remove the script on every way out. */
  method RunAndCollect(h: Machine, script: Path, quality: string) returns (r: Result<Path>)
    requires h.Valid() && ScriptPathIn(script, h.tempDir) && quality in QualityFlags
    requires script in h.fs && h.fs[script].RegularFile?
    modifies h`fs, h`renderLog
    ensures var m := h.MediaDir();
      var run := h.ManimRun(|old(h.renderLog)|);
      var produced := AfterRun(old(h.fs), run);
      h.renderLog == old(h.renderLog) + [RenderCall(RenderCommand(PathString(script), quality, PathString(m)), old(h.fs)[script].content)] &&
      h.fs == produced - {script} &&
      RenderOutcome(run, Mp4Files(produced, VideoDir(m, script, quality)), r)
    ensures r.Ok? ==> r.value in h.fs && r.value != [] && Under(r.value, h.MediaDir())
  {
    var m := h.MediaDir();
    ScriptOutsideMedia(h, script);
    var argv := RenderCommand(PathString(script), quality, PathString(m));
    assert WritesBelow(h.ManimRun(|h.renderLog|), m);
    var run := h.RunManim(argv, h.fs[script].content);
    match run {
      case LaunchFailed(e) =>
        r := Err(e);
      case Exited(returncode, stderr, _, _) =>
        if returncode != 0 {
          r := Err(RuntimeError(stderr));
        } else {
          QualityTablesAgree();
          var videos := Mp4Files(h.fs, VideoDir(m, script, quality));
          if videos == {} {
            r := Err(FileNotFoundError(NoVideoMessage));
          } else {
            var video :| video in videos;
            assert Name(video) != Name(script) by {
              assert EndsWith(Name(video), ".mp4");
              assert Name(script)[|Name(script)| - 1] == 'y';
            }
            r := Ok(video);
          }
        }
    }
    // finally:
    if script in h.fs {
      h.fs := h.fs - {script};
    }
  }

  /** Writes the script to a fresh temporary file, makes the workspace, runs
      manim once and looks for its video. Nothing outside the workspace
      changes except for the new script file. */
  method RenderManimVideo(h: Machine, code: string, quality: string, now: real)
    returns (r: Result<Path>, ghost script: Path)
    requires h.Valid()
    modifies h`fs, h`renderLog
    ensures ScriptPathIn(script, h.tempDir) && script !in old(h.fs)
    ensures Rendered(old(h.fs), h.fs, h.MediaDir(), script, code, quality, now, h.ManimRun(|old(h.renderLog)|), r)
    ensures h.renderLog == old(h.renderLog) + RenderCalls(old(h.fs), h.MediaDir(), script, code, quality)
    ensures script in h.fs <==> !ReachesTry(old(h.fs), h.MediaDir(), quality)
    ensures forall p :: p in old(h.fs) && !Under(p, h.MediaDir()) ==> p in h.fs && h.fs[p] == old(h.fs)[p]
    ensures forall p :: p in h.fs && p !in old(h.fs) ==> Under(p, h.MediaDir()) || p == script
    ensures MkdirOk(old(h.fs), h.MediaDir()) ==> h.MediaDir() in h.fs && h.fs[h.MediaDir()].Directory?
    ensures !MkdirOk(old(h.fs), h.MediaDir()) ==> h.fs[h.MediaDir()] == old(h.fs)[h.MediaDir()]
    ensures r.Ok? ==> r.value in h.fs && r.value != [] && Under(r.value, h.MediaDir())
  {
    // tempfile.NamedTemporaryFile(delete=False) picks a name nobody uses yet
    ghost var unused := FreshScriptStem(h.fs.Keys, h.tempDir);
    var stem :| TempStem(stem) && h.tempDir + [stem + ".py"] !in h.fs;
    var scriptPath := h.tempDir + [stem + ".py"];
    script := scriptPath;
    assert Name(scriptPath)[..|Name(scriptPath)| - 3] == stem;
    ScriptOutsideMedia(h, scriptPath);
    h.fs := h.fs[scriptPath := RegularFile(code, now)];

    var m := h.MediaDir();
    if m in h.fs && !h.fs[m].Directory? {
      r := Err(OSError(17, "File exists", m));
      return;
    }
    h.fs := h.fs[m := Directory];
    if quality !in QualityFlags {
      r := Err(KeyError(quality));
      return;
    }
    ghost var fs1 := h.fs;
    ghost var run := h.ManimRun(|h.renderLog|);
    assert WritesBelow(run, m);
    AfterRunFrame(fs1, run, m);
    QualityTablesAgree();
    r := RunAndCollect(h, scriptPath, quality);
  }

  // ---------------------------------------------------------------------------
  // The success branch of an attempt: copy the video to durable storage

  /** Where shutil.copy writes: into dst, or into dst/<name of src> when dst is
      a directory. */
  function CopyTarget(fs: FileMap, src: Path, dst: Path): Path
    requires src != []
  {
    if dst in fs && fs[dst].Directory? then dst + [Name(src)] else dst
  }

  /** shutil.copy(src, dst): the source must be a regular file; the copy
      lands at CopyTarget, which must not be a directory itself. */
  method CopyFile(h: Machine, src: Path, dst: Path, now: real) returns (r: Result<Path>)
    requires src != []
    modifies h`fs
    ensures var target := CopyTarget(old(h.fs), src, dst);
      if src !in old(h.fs) then
        r == Err(OSError(2, "No such file or directory", src)) && h.fs == old(h.fs)
      else if old(h.fs)[src].Directory? then
        r == Err(OSError(21, "Is a directory", src)) && h.fs == old(h.fs)
      else if target in old(h.fs) && old(h.fs)[target].Directory? then
        r == Err(OSError(21, "Is a directory", target)) && h.fs == old(h.fs)
      else
        r == Ok(target) && h.fs == old(h.fs)[target := RegularFile(old(h.fs)[src].content, now)]
  {
    if src !in h.fs {
      return Err(OSError(2, "No such file or directory", src));
    }
    if h.fs[src].Directory? {
      return Err(OSError(21, "Is a directory", src));
    }
    var target := CopyTarget(h.fs, src, dst);
    if target in h.fs && h.fs[target].Directory? {
      return Err(OSError(21, "Is a directory", target));
    }
    h.fs := h.fs[target := RegularFile(h.fs[src].content, now)];
    r := Ok(target);
  }

  /** How saving a video as d/name ends on fs: mkdir's errno 17 when a file
      is in d's place, otherwise shutil.copy's cases once d exists. The path
      returned is d/name even when the copy went into a directory of that
      name. */
  predicate SavedTo(fs: FileMap, fs': FileMap, d: Path, video: Path, name: string, now: real, r: Result<Path>)
    requires video != []
  {
    if !MkdirOk(fs, d) then
      r == Err(OSError(17, "File exists", d)) && fs' == fs
    else
      var fs1 := fs[d := Directory];
      var target := CopyTarget(fs1, video, d + [name]);
      if video !in fs1 then
        r == Err(OSError(2, "No such file or directory", video)) && fs' == fs1
      else if fs1[video].Directory? then
        r == Err(OSError(21, "Is a directory", video)) && fs' == fs1
      else if target in fs1 && fs1[target].Directory? then
        r == Err(OSError(21, "Is a directory", target)) && fs' == fs1
      else
        r == Ok(d + [name]) && fs' == fs1[target := RegularFile(fs1[video].content, now)]
  }

  /** final_output_dir.mkdir(exist_ok=True), then shutil.copy of the video to
      final_output_dir / name. Only final_videos itself and, on success, the
      returned path or what lies in it can change. */
  method CopyToFinal(h: Machine, video: Path, name: string, now: real) returns (r: Result<Path>)
    requires video != []
    modifies h`fs
    ensures SavedTo(old(h.fs), h.fs, h.FinalDir(), video, name, now, r)
    ensures forall p :: p in old(h.fs) ==> p in h.fs && (h.fs[p] == old(h.fs)[p] || (r.Ok? && Under(p, r.value)))
    ensures forall p :: p in h.fs && p !in old(h.fs) ==> p == h.FinalDir() || (r.Ok? && Under(p, r.value))
    ensures r.Ok? ==> r == Ok(h.FinalDir() + [name]) && r.value in h.fs
  {
    var d := h.FinalDir();
    if d in h.fs && !h.fs[d].Directory? {
      return Err(OSError(17, "File exists", d));
    }
    h.fs := h.fs[d := Directory];
    var dst := d + [name];
    ghost var target := CopyTarget(h.fs, video, dst);
    assert Under(target, dst);
    var copied := CopyFile(h, video, dst, now);
    r := if copied.Err? then Err(copied.error) else Ok(dst);
  }

  /** The copy's name ends in an underscore, the whole seconds and ".mp4". */
  lemma UniqueFilenameSuffix(videoName: string, now: real)
    ensures EndsWith(UniqueFilename(videoName, now), "_" + IntToString(Trunc(now)) + ".mp4")
  {
    var tail := "_" + IntToString(Trunc(now)) + ".mp4";
    var root := SplitextRoot(videoName);
    var name := UniqueFilename(videoName, now);
    assert name == root + tail;
    assert name[|root|..] == tail;
  }

  /** Makes final_videos, then copies the video there under UniqueFilename. */
  method SaveFinalVideo(h: Machine, video: Path, now: real) returns (r: Result<Path>)
    requires video != []
    modifies h`fs
    ensures SavedTo(old(h.fs), h.fs, h.FinalDir(), video, UniqueFilename(Name(video), now), now, r)
    ensures forall p :: p in old(h.fs) ==> p in h.fs && (h.fs[p] == old(h.fs)[p] || (r.Ok? && Under(p, r.value)))
    ensures forall p :: p in h.fs && p !in old(h.fs) ==> p == h.FinalDir() || (r.Ok? && Under(p, r.value))
    ensures r.Ok? ==> r.value in h.fs && ChildOf(r.value, h.FinalDir())
    ensures r.Ok? ==> EndsWith(Name(r.value), "_" + IntToString(Trunc(now)) + ".mp4")
  {
    var name := UniqueFilename(Name(video), now);
    UniqueFilenameSuffix(Name(video), now);
    r := CopyToFinal(h, video, name, now);
  }

  // ---------------------------------------------------------------------------
  // One attempt of the loop body

  /** What one attempt did on its way: the script file tempfile picked, what
      the render returned, and the filesystem between render and copy. */
  datatype Step = Step(script: Path, rendered: Result<Path>, mid: FileMap)

  /** How one loop body ends, from the filesystem fs before it, the script
      text code and the run manim would make: the render attempt, then on
      success the copy under its unique name. The first failure is the
      attempt's result. */
  predicate Attempted(h: Machine, fs: FileMap, fs': FileMap, code: string, quality: string, now: real,
                      run: ProcessRun, step: Step, res: Result<Path>)
  {
    ScriptPathIn(step.script, h.tempDir) && step.script !in fs &&
    Rendered(fs, step.mid, h.MediaDir(), step.script, code, quality, now, run, step.rendered) &&
    if step.rendered.Err? then res == step.rendered && fs' == step.mid
    else
      var video := step.rendered.value;
      video != [] && SavedTo(step.mid, fs', h.FinalDir(), video, UniqueFilename(Name(video), now), now, res)
  }

  /** An attempt that cannot reach the try region makes no run, so it does
      not depend on what a run would do. */
  lemma AttemptedWithoutRun(h: Machine, fs: FileMap, fs': FileMap, code: string, quality: string, now: real,
                            run: ProcessRun, run': ProcessRun, step: Step, res: Result<Path>)
    requires !ReachesTry(fs, h.MediaDir(), quality)
    requires Attempted(h, fs, fs', code, quality, now, run, step, res)
    ensures Attempted(h, fs, fs', code, quality, now, run', step, res)
  {
  }

  /** One loop body: render, then save on success. Whatever either step
      raises is the attempt's failure. Outside the workspace, only new script
      files, final_videos itself and, on success, the returned path change. */
  method Attempt(h: Machine, code: string, quality: string, now: real)
    returns (res: Result<Path>, ghost step: Step)
    requires h.Valid()
    modifies h`fs, h`renderLog
    ensures Attempted(h, old(h.fs), h.fs, code, quality, now, h.ManimRun(|old(h.renderLog)|), step, res)
    ensures h.renderLog == old(h.renderLog) + RenderCalls(old(h.fs), h.MediaDir(), step.script, code, quality)
    ensures forall p :: p in old(h.fs) && !Under(p, h.MediaDir()) ==>
      p in h.fs && (h.fs[p] == old(h.fs)[p] || (res.Ok? && Under(p, res.value)))
    ensures forall p :: p in h.fs && p !in old(h.fs) ==>
      Under(p, h.MediaDir()) || ChildOf(p, h.tempDir) || p == h.FinalDir() || (res.Ok? && Under(p, res.value))
    ensures MkdirOk(old(h.fs), h.MediaDir()) ==> h.MediaDir() in h.fs && h.fs[h.MediaDir()].Directory?
    ensures !MkdirOk(old(h.fs), h.MediaDir()) ==>
      res.Err? && h.MediaDir() in h.fs && h.fs[h.MediaDir()] == old(h.fs)[h.MediaDir()]
    ensures res.Ok? ==>
      res.value in h.fs && ChildOf(res.value, h.FinalDir()) &&
      EndsWith(Name(res.value), "_" + IntToString(Trunc(now)) + ".mp4")
  {
    var rendered, script := RenderManimVideo(h, code, quality, now);
    step := Step(script, rendered, h.fs);
    if rendered.Err? {
      return rendered, step;
    }
    res := SaveFinalVideo(h, rendered.value, now);
    WorkspacesApart(h);
  }

  // ---------------------------------------------------------------------------
  // The repair loop as a state machine over pre-chosen outcomes

  /** What the loop did: the scripts it submitted to render attempts, the
      debugger calls it made, and what it returned or raised. */
  datatype Trace = Trace(rendered: seq<string>, debugCalls: seq<LlmCall>, outcome: Result<Path>)

  /** The error raised once the last attempt has failed. */
  function FinalMessage(lastError: string): string
  {
    "Failed to generate video after " + IntToString(MaxDebugAttempts) + " attempts. " +
    "The request may be too complex. Last error: " + lastError
  }

  /** The summary error names the attempt count and ends with the last
      failure text, verbatim. */
  lemma FinalMessageText(lastError: string)
    ensures FinalMessage(lastError) ==
      "Failed to generate video " + "after 3 attempts" + ". " + "The request may be too complex. " +
      "Last error: " + lastError
    ensures EndsWith(FinalMessage(lastError), "Last error: " + lastError)
  {
    assert Digits(3) == [DigitChar(3)] == "3";
    assert IntToString(MaxDebugAttempts) == "3";
    assert "Failed to generate video after " == "Failed to generate video " + "after ";
    assert " attempts. " == " attempts" + ". ";
    assert "The request may be too complex. Last error: " == "The request may be too complex. " + "Last error: ";
    assert "after " + "3" + " attempts" == "after 3 attempts";
    var m := FinalMessage(lastError);
    var tail := "Last error: " + lastError;
    assert m == "Failed to generate video " + "after 3 attempts" + ". " + "The request may be too complex. " + tail;
    assert m[|m| - |tail|..] == tail;
  }

  /** The loop from attempt `attempt` on, with `code` as the script to render.
      results[i] is how the body of attempt i + 1 ends (render and copy) and
      replies[i] what the debugger answers after it; an entry is consulted
      only if the loop gets that far. */
  function RepairLoop(plan: string, code: string, attempt: nat,
                      results: seq<Result<Path>>, replies: seq<Result<string>>): (t: Trace)
    requires 1 <= attempt <= MaxDebugAttempts
    requires |results| == MaxDebugAttempts && |replies| == MaxDebugAttempts - 1
    ensures 1 <= |t.rendered| <= MaxDebugAttempts - attempt + 1 && t.rendered[0] == code
    ensures |t.rendered| - 1 <= |t.debugCalls| <= |t.rendered| && |t.debugCalls| <= MaxDebugAttempts - attempt
    decreases MaxDebugAttempts - attempt
  {
    match results[attempt - 1]
    case Ok(path) => Trace([code], [], Ok(path))
    case Err(e) =>
      if attempt == MaxDebugAttempts then
        Trace([code], [], Err(RuntimeError(FinalMessage(Str(e)))))
      else
        var call := DebugCode(plan, code, Str(e));
        match replies[attempt - 1]
        case Err(x) => Trace([code], [call], Err(x))
        case Ok(fixed) =>
          var rest := RepairLoop(plan, fixed, attempt + 1, results, replies);
          Trace([code] + rest.rendered, [call] + rest.debugCalls, rest.outcome)
  }

  /** How a run of the loop ends. Every attempt but the last one made failed
      and was repaired; the loop returns exactly when that last attempt
      succeeded; else it raised the debugger's error, or, after the final
      attempt, the summary error carrying the last failure text. */
  lemma {:induction false} RepairLoopOutcome(plan: string, code: string, attempt: nat,
                                             results: seq<Result<Path>>, replies: seq<Result<string>>)
    requires 1 <= attempt <= MaxDebugAttempts
    requires |results| == MaxDebugAttempts && |replies| == MaxDebugAttempts - 1
    ensures var t := RepairLoop(plan, code, attempt, results, replies);
      var last := attempt + |t.rendered| - 2;
      (forall i :: attempt - 1 <= i < last ==> results[i].Err? && replies[i].Ok?) &&
      (results[last].Ok? ==> t.outcome == results[last] && |t.debugCalls| == |t.rendered| - 1) &&
      (results[last].Err? && |t.debugCalls| == |t.rendered| ==>
         last < MaxDebugAttempts - 1 && replies[last].Err? && t.outcome == Err(replies[last].error)) &&
      (results[last].Err? && |t.debugCalls| == |t.rendered| - 1 ==>
         last == MaxDebugAttempts - 1 && t.outcome == Err(RuntimeError(FinalMessage(Str(results[last].error)))))
    decreases MaxDebugAttempts - attempt
  {
    var i := attempt - 1;
    if results[i].Err? && attempt < MaxDebugAttempts && replies[i].Ok? {
      RepairLoopOutcome(plan, replies[i].value, attempt + 1, results, replies);
    }
  }

  /** Each debugger call gets the unchanged plan, the script that just failed
      and str() of its failure; its answer is the next script rendered. */
  lemma {:induction false} RepairLoopThreadsPlan(plan: string, code: string, attempt: nat,
                                                 results: seq<Result<Path>>, replies: seq<Result<string>>)
    requires 1 <= attempt <= MaxDebugAttempts
    requires |results| == MaxDebugAttempts && |replies| == MaxDebugAttempts - 1
    ensures var t := RepairLoop(plan, code, attempt, results, replies);
      (forall i :: 0 <= i < |t.debugCalls| ==>
         results[attempt - 1 + i].Err? &&
         t.debugCalls[i] == DebugCode(plan, t.rendered[i], Str(results[attempt - 1 + i].error))) &&
      (forall i :: 1 <= i < |t.rendered| ==>
         replies[attempt - 2 + i].Ok? && t.rendered[i] == replies[attempt - 2 + i].value)
    decreases MaxDebugAttempts - attempt
  {
    var j := attempt - 1;
    if results[j].Err? && attempt < MaxDebugAttempts && replies[j].Ok? {
      RepairLoopThreadsPlan(plan, replies[j].value, attempt + 1, results, replies);
    }
  }

  /** Success at the k-th attempt after k failures that were all repaired:
      k + 1 renders, k debugger calls, and that attempt's path is returned. */
  lemma RepairLoopFirstSuccess(plan: string, code: string, results: seq<Result<Path>>,
                               replies: seq<Result<string>>, k: nat)
    requires |results| == MaxDebugAttempts && |replies| == MaxDebugAttempts - 1
    requires k < MaxDebugAttempts && results[k].Ok?
    requires forall i :: 0 <= i < k ==> results[i].Err? && replies[i].Ok?
    ensures var t := RepairLoop(plan, code, 1, results, replies);
      t.outcome == results[k] && |t.rendered| == k + 1 && |t.debugCalls| == k
  {
    RepairLoopOutcome(plan, code, 1, results, replies);
  }

  /** When every attempt fails and every repair answers: MaxDebugAttempts
      renders, one repair fewer, and the summary error with the last failure. */
  lemma RepairLoopAllFail(plan: string, code: string, results: seq<Result<Path>>, replies: seq<Result<string>>)
    requires |results| == MaxDebugAttempts && |replies| == MaxDebugAttempts - 1
    requires forall i :: 0 <= i < |results| ==> results[i].Err?
    requires forall i :: 0 <= i < |replies| ==> replies[i].Ok?
    ensures var t := RepairLoop(plan, code, 1, results, replies);
      |t.rendered| == MaxDebugAttempts && |t.debugCalls| == MaxDebugAttempts - 1 &&
      t.outcome == Err(RuntimeError(FinalMessage(Str(results[MaxDebugAttempts - 1].error))))
  {
    RepairLoopOutcome(plan, code, 1, results, replies);
  }

  /** Entries for attempts and repairs the loop never gets to are never consulted. */
  lemma {:induction false} RepairLoopPrefix(plan: string, code: string, attempt: nat,
                                            results: seq<Result<Path>>, replies: seq<Result<string>>,
                                            results': seq<Result<Path>>, replies': seq<Result<string>>)
    requires 1 <= attempt <= MaxDebugAttempts
    requires |results| == |results'| == MaxDebugAttempts
    requires |replies| == |replies'| == MaxDebugAttempts - 1
    requires var t := RepairLoop(plan, code, attempt, results, replies);
      (forall i :: attempt - 1 <= i < attempt - 1 + |t.rendered| ==> results[i] == results'[i]) &&
      (forall i :: attempt - 1 <= i < attempt - 1 + |t.debugCalls| ==> replies[i] == replies'[i])
    ensures RepairLoop(plan, code, attempt, results, replies) == RepairLoop(plan, code, attempt, results', replies')
    decreases MaxDebugAttempts - attempt
  {
    var j := attempt - 1;
    assert results[j] == results'[j];
    if results[j].Err? && attempt < MaxDebugAttempts {
      assert replies[j] == replies'[j];
      if replies[j].Ok? {
        RepairLoopPrefix(plan, replies[j].value, attempt + 1, results, replies, results', replies');
      }
    }
  }

  /** One failed attempt whose repair answered: the loop goes on from the
      next attempt with the repaired script. */
  lemma RepairLoopStep(plan: string, code: string, attempt: nat,
                       results: seq<Result<Path>>, replies: seq<Result<string>>)
    requires 1 <= attempt < MaxDebugAttempts
    requires |results| == MaxDebugAttempts && |replies| == MaxDebugAttempts - 1
    requires results[attempt - 1].Err? && replies[attempt - 1].Ok?
    ensures var rest := RepairLoop(plan, replies[attempt - 1].value, attempt + 1, results, replies);
      RepairLoop(plan, code, attempt, results, replies) ==
        Trace([code] + rest.rendered, [DebugCode(plan, code, Str(results[attempt - 1].error))] + rest.debugCalls,
              rest.outcome)
  {
  }

  /** The first k attempts failed, each was repaired, codes[i + 1] is the
      repair of codes[i] and calls[i] the debugger call that asked for it. */
  predicate Repaired(plan: string, codes: seq<string>, k: nat,
                     results: seq<Result<Path>>, replies: seq<Result<string>>, calls: seq<LlmCall>)
  {
    k <= |results| && k <= |replies| && |codes| == k + 1 && |calls| == k &&
    forall i :: 0 <= i < k ==>
      results[i].Err? && replies[i].Ok? && codes[i + 1] == replies[i].value &&
      calls[i] == DebugCode(plan, codes[i], Str(results[i].error))
  }

  /** A further failed and repaired attempt extends the record. */
  lemma RepairedExtend(plan: string, codes: seq<string>, k: nat,
                       results: seq<Result<Path>>, replies: seq<Result<string>>, calls: seq<LlmCall>,
                       res: Result<Path>, reply: Result<string>)
    requires Repaired(plan, codes, k, results, replies, calls) && |results| == |replies| == k
    requires res.Err? && reply.Ok?
    ensures Repaired(plan, codes + [reply.value], k + 1, results + [res], replies + [reply],
                     calls + [DebugCode(plan, codes[k], Str(res.error))])
  {
  }

  /** After k failed and repaired attempts, the rest of the loop is the loop
      started at attempt k + 1 with the k-th repaired script. */
  lemma {:induction false} RepairLoopAfterRepairs(plan: string, codes: seq<string>, k: nat,
                                                  results: seq<Result<Path>>, replies: seq<Result<string>>,
                                                  calls: seq<LlmCall>)
    requires k < MaxDebugAttempts
    requires |results| == MaxDebugAttempts && |replies| == MaxDebugAttempts - 1
    requires Repaired(plan, codes, k, results, replies, calls)
    ensures var u := RepairLoop(plan, codes[k], k + 1, results, replies);
      RepairLoop(plan, codes[0], 1, results, replies) ==
        Trace(codes[..k] + u.rendered, calls + u.debugCalls, u.outcome)
    decreases k
  {
    var u := RepairLoop(plan, codes[k], k + 1, results, replies);
    if k == 0 {
      assert codes[..0] + u.rendered == u.rendered && calls + u.debugCalls == u.debugCalls;
    } else {
      var prefix := codes[..k];
      RepairLoopAfterRepairs(plan, prefix, k - 1, results, replies, calls[..k - 1]);
      var v := RepairLoop(plan, codes[k - 1], k, results, replies);
      assert prefix[0] == codes[0] && prefix[k - 1] == codes[k - 1];
      assert RepairLoop(plan, codes[0], 1, results, replies) ==
        Trace(prefix[..k - 1] + v.rendered, calls[..k - 1] + v.debugCalls, v.outcome);
      RepairLoopStep(plan, codes[k - 1], k, results, replies);
      assert replies[k - 1].value == codes[k] && calls[k - 1] == DebugCode(plan, codes[k - 1], Str(results[k - 1].error));
      assert v == Trace([codes[k - 1]] + u.rendered, [calls[k - 1]] + u.debugCalls, u.outcome);
      AppendAssoc(prefix[..k - 1], [codes[k - 1]], u.rendered);
      AppendAssoc(calls[..k - 1], [calls[k - 1]], u.debugCalls);
      assert prefix[..k - 1] + [codes[k - 1]] == codes[..k];
      assert calls[..k - 1] + [calls[k - 1]] == calls;
    }
  }


  // ---------------------------------------------------------------------------
  // process_prompt_to_video

  ghost function Unused<T>(n: nat, filler: T): seq<T>
  {
    seq(n, _ => filler)
  }

  /** Attempt i + 1 started on states[i] with script codes[i], met manim's
      run number runBase + i, left states[i + 1] and ended with results[i]. */
  predicate Ran(h: Machine, states: seq<FileMap>, steps: seq<Step>, codes: seq<string>,
                results: seq<Result<Path>>, runBase: nat, quality: string, now: real)
  {
    |states| == |steps| + 1 && |steps| <= |codes| && |steps| <= |results| &&
    forall i {:trigger steps[i]} :: 0 <= i < |steps| ==>
      Attempted(h, states[i], states[i + 1], codes[i], quality, now, h.ManimRun(runBase + i), steps[i], results[i])
  }

  /** The first n debugger answers are tools.py's answers to the calls
      numbered llmBase, llmBase + 1, and so on. */
  predicate Answered(h: Machine, llmBase: nat, replies: seq<Result<string>>, n: nat)
  {
    n <= |replies| && forall i :: 0 <= i < n ==> replies[i] == h.LlmReply(llmBase + i)
  }

  /** The manim runs of the attempts in steps: one per attempt, rendering
      codes[i] from that attempt's script file, when the attempts reach the
      try region; none when they do not. */
  predicate RunsOf(h: Machine, fs0: FileMap, quality: string, steps: seq<Step>, codes: seq<string>,
                   renders: seq<RenderCall>)
  {
    if ReachesTry(fs0, h.MediaDir(), quality) then
      |renders| == |steps| <= |codes| &&
      forall i {:trigger renders[i]} :: 0 <= i < |renders| ==>
        renders[i] == RenderCall(RenderCommand(PathString(steps[i].script), quality, PathString(h.MediaDir())), codes[i])
    else
      renders == []
  }

  /** Ran only looks at the first |steps| scripts and results. */
  lemma RanRebase(h: Machine, states: seq<FileMap>, steps: seq<Step>, codes: seq<string>, results: seq<Result<Path>>,
                  codes': seq<string>, results': seq<Result<Path>>, runBase: nat, quality: string, now: real)
    requires Ran(h, states, steps, codes, results, runBase, quality, now)
    requires |steps| <= |codes'| && |steps| <= |results'|
    requires forall i :: 0 <= i < |steps| ==> codes'[i] == codes[i] && results'[i] == results[i]
    ensures Ran(h, states, steps, codes', results', runBase, quality, now)
  {
    forall i | 0 <= i < |steps|
      ensures Attempted(h, states[i], states[i + 1], codes'[i], quality, now, h.ManimRun(runBase + i), steps[i], results'[i])
    {
    }
  }

  /** Attempted of equal arguments. Called with the whole predicate as its
      precondition, it keeps the verifier from proving each unfolded part
      of Attempted separately in a large context. */
  lemma AttemptedOfEqual(h: Machine, fs: FileMap, fs': FileMap, code: string, quality: string, now: real,
                         run: ProcessRun, step: Step, res: Result<Path>,
                         gs: FileMap, gs': FileMap, code': string, run': ProcessRun, step': Step, res': Result<Path>)
    requires Attempted(h, fs, fs', code, quality, now, run, step, res)
    requires gs == fs && gs' == fs' && code' == code && run' == run && step' == step && res' == res
    ensures Attempted(h, gs, gs', code', quality, now, run', step', res')
  {
  }

  /** One more attempt, on the state the last one left. */
  lemma RanExtend(h: Machine, states: seq<FileMap>, steps: seq<Step>, codes: seq<string>, results: seq<Result<Path>>,
                  runBase: nat, quality: string, now: real, fs': FileMap, step: Step)
    requires Ran(h, states, steps, codes, results, runBase, quality, now)
    requires |steps| < |codes| && |steps| < |results|
    requires Attempted(h, states[|steps|], fs', codes[|steps|], quality, now, h.ManimRun(runBase + |steps|), step, results[|steps|])
    ensures Ran(h, states + [fs'], steps + [step], codes, results, runBase, quality, now)
  {
    var states', steps' := states + [fs'], steps + [step];
    forall i | 0 <= i < |steps'|
      ensures Attempted(h, states'[i], states'[i + 1], codes[i], quality, now, h.ManimRun(runBase + i), steps'[i], results[i])
    {
      var run := h.ManimRun(runBase + i);
      AttemptedOfEqual(h, states[i], if i < |steps| then states[i + 1] else fs', codes[i], quality, now, run,
                       if i < |steps| then steps[i] else step, results[i],
                       states'[i], states'[i + 1], codes[i], run, steps'[i], results[i]);
    }
  }

  /** The recorded debugger answers, and the failing one when the loop
      stopped on it, are the first answers of the padded replies. */
  lemma AnsweredPadded(h: Machine, llmBase: nat, repairs: seq<Result<string>>, replies: seq<Result<string>>, n: nat)
    requires Answered(h, llmBase, repairs, |repairs|)
    requires |repairs| <= n <= |replies| && n <= |repairs| + 1
    requires forall i :: 0 <= i < |repairs| ==> replies[i] == repairs[i]
    requires n == |repairs| + 1 ==> replies[|repairs|] == h.LlmReply(llmBase + |repairs|)
    ensures Answered(h, llmBase, replies, n)
  {
  }

  /** RunsOf only looks at the first |steps| scripts. */
  lemma RunsRebase(h: Machine, fs0: FileMap, quality: string, steps: seq<Step>, codes: seq<string>,
                   codes': seq<string>, renders: seq<RenderCall>)
    requires RunsOf(h, fs0, quality, steps, codes, renders)
    requires |steps| <= |codes| && |steps| <= |codes'|
    requires forall i :: 0 <= i < |steps| ==> codes'[i] == codes[i]
    ensures RunsOf(h, fs0, quality, steps, codes', renders)
  {
  }

  /** One more attempt, started on fs, adds its run when the attempts reach
      the try region. */
  lemma RunsExtend(h: Machine, fs0: FileMap, fs: FileMap, quality: string, steps: seq<Step>, codes: seq<string>,
                   renders: seq<RenderCall>, step: Step)
    requires RunsOf(h, fs0, quality, steps, codes, renders) && |steps| < |codes|
    requires ReachesTry(fs, h.MediaDir(), quality) <==> ReachesTry(fs0, h.MediaDir(), quality)
    ensures RunsOf(h, fs0, quality, steps + [step], codes,
                   renders + RenderCalls(fs, h.MediaDir(), step.script, codes[|steps|], quality))
  {
    if ReachesTry(fs0, h.MediaDir(), quality) {
      var renders' := renders + RenderCalls(fs, h.MediaDir(), step.script, codes[|steps|], quality);
      var steps' := steps + [step];
      forall i | 0 <= i < |renders'|
        ensures renders'[i] == RenderCall(RenderCommand(PathString(steps'[i].script), quality, PathString(h.MediaDir())), codes[i])
      {
        if i < |renders| {
          assert renders'[i] == renders[i] && steps'[i] == steps[i];
        }
      }
    }
  }

  /** What an attempt after the attempts recorded in rec establishes when
      it started on the state the last of them left, left fs and renderLog,
      made the manim runs runs and ended with res: it is one more step of Ran
      and RunsOf, its runs follow the recorded ones in the log, outside the
      workspace only new script files, final_videos and, on success, the
      returned path changed, the workspace keeps its mkdir outcome, and a
      success is a timestamped copy in final_videos. */
  predicate Tried(h: Machine, quality: string, now: real, fs0: FileMap, renders0: seq<RenderCall>, rec: Record,
                  fs: FileMap, renderLog: seq<RenderCall>, res: Result<Path>, step: Step, runs: seq<RenderCall>)
  {
    Ran(h, rec.states + [fs], rec.steps + [step], rec.codes, rec.failed + [res], |renders0|, quality, now) &&
    RunsOf(h, fs0, quality, rec.steps + [step], rec.codes, rec.renders + runs) &&
    renderLog == renders0 + (rec.renders + runs) &&
    (forall p :: p in fs0 && !Under(p, h.MediaDir()) ==>
       p in fs && (fs[p] == fs0[p] || (res.Ok? && Under(p, res.value)))) &&
    (forall p :: p in fs && p !in fs0 ==>
       Under(p, h.MediaDir()) || ChildOf(p, h.tempDir) || p == h.FinalDir() || (res.Ok? && Under(p, res.value))) &&
    (MkdirOk(fs0, h.MediaDir()) ==> h.MediaDir() in fs && fs[h.MediaDir()].Directory?) &&
    (!MkdirOk(fs0, h.MediaDir()) ==> res.Err? && h.MediaDir() in fs && fs[h.MediaDir()] == fs0[h.MediaDir()]) &&
    (res.Ok? ==>
       res.value in fs && ChildOf(res.value, h.FinalDir()) &&
       EndsWith(Name(res.value), "_" + IntToString(Trunc(now)) + ".mp4"))
  }

  /** An attempt on the state the attempts recorded in rec left, which
      meets manim's next run, is one more step of Ran and RunsOf. */
  lemma RecordExtend(h: Machine, quality: string, now: real, fs0: FileMap, renders0: seq<RenderCall>, rec: Record,
                     code: string, fs: FileMap, fs': FileMap, runIndex: nat, res: Result<Path>, step: Step)
    requires Ran(h, rec.states, rec.steps, rec.codes, rec.failed, |renders0|, quality, now) && fs == rec.states[|rec.steps|]
    requires |rec.steps| == |rec.failed| < |rec.codes| && rec.codes[|rec.steps|] == code
    requires RunsOf(h, fs0, quality, rec.steps, rec.codes, rec.renders) && runIndex == |renders0| + |rec.renders|
    requires MkdirOk(fs0, h.MediaDir()) ==> MkdirOk(fs, h.MediaDir())
    requires !MkdirOk(fs0, h.MediaDir()) ==> h.MediaDir() in fs && fs[h.MediaDir()] == fs0[h.MediaDir()]
    requires Attempted(h, fs, fs', code, quality, now, h.ManimRun(runIndex), step, res)
    ensures Ran(h, rec.states + [fs'], rec.steps + [step], rec.codes, rec.failed + [res], |renders0|, quality, now)
    ensures RunsOf(h, fs0, quality, rec.steps + [step], rec.codes,
                   rec.renders + RenderCalls(fs, h.MediaDir(), step.script, code, quality))
  {
    var runBase, steps, codes, failed := |renders0|, rec.steps, rec.codes, rec.failed;
    var run := h.ManimRun(runBase + |steps|);
    var fs1, code1, res1 := rec.states[|steps|], codes[|steps|], (failed + [res])[|steps|];
    if ReachesTry(fs0, h.MediaDir(), quality) {
      assert runIndex == runBase + |steps|;
      AttemptedOfEqual(h, fs, fs', code, quality, now, h.ManimRun(runIndex), step, res, fs1, fs', code1, run, step, res1);
    } else {
      AttemptedWithoutRun(h, fs, fs', code, quality, now, h.ManimRun(runIndex), run, step, res);
      AttemptedOfEqual(h, fs, fs', code, quality, now, run, step, res, fs1, fs', code1, run, step, res1);
    }
    RanRebase(h, rec.states, steps, codes, failed, codes, failed + [res], runBase, quality, now);
    RanExtend(h, rec.states, steps, codes, failed + [res], runBase, quality, now, fs', step);
    RunsExtend(h, fs0, fs, quality, steps, codes, rec.renders, step);
  }

  /** Attempt, recorded as one more step after the attempts in rec: it starts
      on the state the last recorded attempt left and meets manim's next run. */
  method TrackedAttempt(h: Machine, code: string, quality: string, now: real,
                        ghost fs0: FileMap, ghost renders0: seq<RenderCall>, ghost rec: Record)
    returns (res: Result<Path>, ghost step: Step, ghost runs: seq<RenderCall>)
    requires h.Valid()
    requires Ran(h, rec.states, rec.steps, rec.codes, rec.failed, |renders0|, quality, now) && h.fs == rec.states[|rec.steps|]
    requires |rec.steps| == |rec.failed| < |rec.codes| && rec.codes[|rec.steps|] == code
    requires RunsOf(h, fs0, quality, rec.steps, rec.codes, rec.renders) && h.renderLog == renders0 + rec.renders
    requires forall p :: p in fs0 && !Under(p, h.MediaDir()) ==> p in h.fs && h.fs[p] == fs0[p]
    requires forall p :: p in h.fs && p !in fs0 ==> Under(p, h.MediaDir()) || ChildOf(p, h.tempDir) || p == h.FinalDir()
    requires MkdirOk(fs0, h.MediaDir()) ==> MkdirOk(h.fs, h.MediaDir())
    requires !MkdirOk(fs0, h.MediaDir()) ==> h.MediaDir() in h.fs && h.fs[h.MediaDir()] == fs0[h.MediaDir()]
    modifies h`fs, h`renderLog
    ensures Tried(h, quality, now, fs0, renders0, rec, h.fs, h.renderLog, res, step, runs)
  {
    ghost var before, runIndex := h.fs, |h.renderLog|;
    res, step := Attempt(h, code, quality, now);
    runs := RenderCalls(before, h.MediaDir(), step.script, code, quality);
    RecordExtend(h, quality, now, fs0, renders0, rec, code, before, h.fs, runIndex, res, step);
    AppendAssoc(renders0, rec.renders, runs);
  }

  /** The try region ran as RepairLoop over results and replies, padded to
      full length: attempt i + 1 rendered RepairLoop's i-th script on the state
      the previous attempt left (states[0] is fs0), with manim's run number
      runBase + i, and the debugger's answers are tools.py's answers to the
      calls numbered from llmBase on. */
  predicate LoopRan(h: Machine, fs0: FileMap, llmBase: nat, runBase: nat, plan: string, code: string,
                    quality: string, now: real, results: seq<Result<Path>>, replies: seq<Result<string>>,
                    states: seq<FileMap>, steps: seq<Step>, renders: seq<RenderCall>)
  {
    |results| == MaxDebugAttempts && |replies| == MaxDebugAttempts - 1 &&
    var t := RepairLoop(plan, code, 1, results, replies);
    Answered(h, llmBase, replies, |t.debugCalls|) &&
    |steps| == |t.rendered| && Ran(h, states, steps, t.rendered, results, runBase, quality, now) &&
    states[0] == fs0 && RunsOf(h, fs0, quality, steps, t.rendered, renders)
  }

  /** What the loop has met so far: codes[i] is the script of attempt i + 1,
      failed and repairs are the results of the attempts that failed and the
      debugger's answers to them, calls the debugger calls that asked for those
      answers, states[i] the filesystem before attempt i + 1, steps the
      attempts made and renders their manim runs. */
  datatype Record = Record(codes: seq<string>, failed: seq<Result<Path>>, repairs: seq<Result<string>>,
                           calls: seq<LlmCall>, states: seq<FileMap>, steps: seq<Step>, renders: seq<RenderCall>)

  /** The loop's invariant: every attempt made so far failed and was
      repaired, the next script to render is the last of rec.codes, and the
      record agrees with the oracles (debugger answers numbered from llmBase,
      manim runs from runBase) and starts on fs0. */
  predicate Progress(h: Machine, plan: string, code: string, quality: string, now: real,
                     fs0: FileMap, llmBase: nat, runBase: nat, rec: Record)
  {
    1 <= |rec.codes| <= MaxDebugAttempts && rec.codes[0] == code &&
    |rec.failed| == |rec.repairs| == |rec.steps| == |rec.codes| - 1 &&
    Repaired(plan, rec.codes, |rec.steps|, rec.failed, rec.repairs, rec.calls) &&
    Answered(h, llmBase, rec.repairs, |rec.repairs|) &&
    Ran(h, rec.states, rec.steps, rec.codes, rec.failed, runBase, quality, now) && rec.states[0] == fs0 &&
    RunsOf(h, fs0, quality, rec.steps, rec.codes, rec.renders)
  }

  /** The record after one more attempt, which failed with res, left fs and
      made the manim runs runs, and whose repair answered fixed. */
  function Continued(plan: string, rec: Record, fs: FileMap, step: Step, runs: seq<RenderCall>,
                     res: Result<Path>, fixed: Result<string>): (rec': Record)
    requires |rec.codes| > 0 && res.Err? && fixed.Ok?
    ensures |rec'.codes| == |rec.codes| + 1 && rec'.codes[|rec.codes|] == fixed.value
  {
    Record(rec.codes + [fixed.value], rec.failed + [res], rec.repairs + [fixed],
           rec.calls + [DebugCode(plan, rec.codes[|rec.codes| - 1], Str(res.error))],
           rec.states + [fs], rec.steps + [step], rec.renders + runs)
  }

  /** A failed attempt with attempts left, whose repair answered with the
      debugger's next answer, keeps the invariant. */
  lemma ProgressRepaired(h: Machine, plan: string, code: string, quality: string, now: real,
                         fs0: FileMap, llmBase: nat, runBase: nat, rec: Record,
                         fs: FileMap, step: Step, runs: seq<RenderCall>, res: Result<Path>, fixed: Result<string>)
    requires Progress(h, plan, code, quality, now, fs0, llmBase, runBase, rec) && |rec.codes| < MaxDebugAttempts
    requires Ran(h, rec.states + [fs], rec.steps + [step], rec.codes, rec.failed + [res], runBase, quality, now)
    requires RunsOf(h, fs0, quality, rec.steps + [step], rec.codes, rec.renders + runs)
    requires res.Err? && fixed.Ok? && fixed == h.LlmReply(llmBase + |rec.repairs|)
    ensures Progress(h, plan, code, quality, now, fs0, llmBase, runBase, Continued(plan, rec, fs, step, runs, res, fixed))
  {
    var k := |rec.steps|;
    var codes' := rec.codes + [fixed.value];
    RepairedExtend(plan, rec.codes, k, rec.failed, rec.repairs, rec.calls, res, fixed);
    RanRebase(h, rec.states + [fs], rec.steps + [step], rec.codes, rec.failed + [res], codes', rec.failed + [res],
              runBase, quality, now);
    RunsRebase(h, fs0, quality, rec.steps + [step], rec.codes, codes', rec.renders + runs);
    assert Answered(h, llmBase, rec.repairs + [fixed], k + 1);
  }

  /** The attempt after the recorded ones ends the loop, with its success
      res, as the last attempt, or with the failed repair reply: the loop
      then ran as RepairLoop over some padded results and replies. */
  lemma ProgressStops(h: Machine, plan: string, code: string, quality: string, now: real,
                      fs0: FileMap, llmBase: nat, runBase: nat, rec: Record,
                      fs: FileMap, step: Step, runs: seq<RenderCall>, res: Result<Path>, reply: Result<string>)
    returns (results: seq<Result<Path>>, replies: seq<Result<string>>)
    requires Progress(h, plan, code, quality, now, fs0, llmBase, runBase, rec)
    requires Ran(h, rec.states + [fs], rec.steps + [step], rec.codes, rec.failed + [res], runBase, quality, now)
    requires RunsOf(h, fs0, quality, rec.steps + [step], rec.codes, rec.renders + runs)
    requires res.Ok? || |rec.codes| == MaxDebugAttempts || reply.Err?
    requires res.Err? && |rec.codes| < MaxDebugAttempts ==> reply == h.LlmReply(llmBase + |rec.repairs|)
    ensures LoopRan(h, fs0, llmBase, runBase, plan, code, quality, now, results, replies,
                    rec.states + [fs], rec.steps + [step], rec.renders + runs)
    ensures var t := RepairLoop(plan, code, 1, results, replies);
      t.outcome == LoopExit(rec, res, reply) && t.debugCalls == rec.calls + RepairCall(plan, rec, res)
  {
    results, replies := LoopStops(plan, rec.codes, rec.failed, rec.repairs, rec.calls, res, reply);
    RanRebase(h, rec.states + [fs], rec.steps + [step], rec.codes, rec.failed + [res], rec.codes, results,
              runBase, quality, now);
    AnsweredPadded(h, llmBase, rec.repairs, replies, |RepairLoop(plan, code, 1, results, replies).debugCalls|);
  }

  /** The debugger call the loop makes after attempt |rec.codes| failed with
      res, when attempts are left; none otherwise. */
  function RepairCall(plan: string, rec: Record, res: Result<Path>): (calls: seq<LlmCall>)
    requires |rec.codes| > 0
    ensures |calls| <= 1
    ensures calls != [] <==> res.Err? && |rec.codes| < MaxDebugAttempts
  {
    if res.Err? && |rec.codes| < MaxDebugAttempts
    then [DebugCode(plan, rec.codes[|rec.codes| - 1], Str(res.error))]
    else []
  }


  /** The loop's invariant, for a job that started on fs0 with logs log0
      and renders0, on the state fs, llmLog, renderLog: rec is its Progress,
      the logs hold what rec says was asked and run, fs is the state the last
      recorded attempt left, nothing outside the workspace changed, new paths
      are workspace, script or final_videos paths, and the workspace keeps
      its mkdir outcome. */
  predicate Looping(h: Machine, plan: string, code: string, quality: string, now: real, fs0: FileMap,
                    log0: seq<LlmCall>, renders0: seq<RenderCall>, rec: Record,
                    fs: FileMap, llmLog: seq<LlmCall>, renderLog: seq<RenderCall>)
  {
    Progress(h, plan, code, quality, now, fs0, |log0|, |renders0|, rec) &&
    llmLog == log0 + rec.calls && renderLog == renders0 + rec.renders && fs == rec.states[|rec.steps|] &&
    (forall p :: p in fs0 && !Under(p, h.MediaDir()) ==> p in fs && fs[p] == fs0[p]) &&
    (forall p :: p in fs && p !in fs0 ==> Under(p, h.MediaDir()) || ChildOf(p, h.tempDir) || p == h.FinalDir()) &&
    (MkdirOk(fs0, h.MediaDir()) ==> MkdirOk(fs, h.MediaDir())) &&
    (!MkdirOk(fs0, h.MediaDir()) ==> h.MediaDir() in fs && fs[h.MediaDir()] == fs0[h.MediaDir()])
  }

  /** The loop stopped on the state fs, llmLog, renderLog after the attempts
      recorded in rec and one more, which Tried to step, runs and res; fixed is
      the debugger's answer to its failure when attempts were left. The
      attempt succeeded, was the last, or its repair failed, and the call log
      holds the recorded debugger calls and this attempt's. */
  predicate Stopped(h: Machine, plan: string, code: string, quality: string, now: real, fs0: FileMap,
                    log0: seq<LlmCall>, renders0: seq<RenderCall>, rec: Record,
                    res: Result<Path>, fixed: Result<string>, step: Step, runs: seq<RenderCall>,
                    fs: FileMap, llmLog: seq<LlmCall>, renderLog: seq<RenderCall>)
  {
    Progress(h, plan, code, quality, now, fs0, |log0|, |renders0|, rec) &&
    Tried(h, quality, now, fs0, renders0, rec, fs, renderLog, res, step, runs) &&
    (res.Ok? || |rec.codes| == MaxDebugAttempts || fixed.Err?) &&
    (res.Err? && |rec.codes| < MaxDebugAttempts ==> fixed == h.LlmReply(|log0| + |rec.repairs|)) &&
    llmLog == log0 + (rec.calls + RepairCall(plan, rec, res))
  }

  /** How the loop ends after the attempts recorded in rec and one more
      attempt with result res, whose failure the debugger answered with
      fixed when attempts were left: the attempt's success, the summary error
      after the last attempt, or the debugger's error. */
  function LoopExit(rec: Record, res: Result<Path>, fixed: Result<string>): Result<Path>
    requires res.Ok? || |rec.codes| == MaxDebugAttempts || fixed.Err?
  {
    if res.Ok? then res
    else if |rec.codes| == MaxDebugAttempts then Err(RuntimeError(FinalMessage(Str(res.error))))
    else Err(fixed.error)
  }

  lemma AppendAssoc<T>(a: seq<T>, b: seq<T>, c: seq<T>)
    ensures a + b + c == a + (b + c)
  {
  }

  lemma SplitLast<T>(s: seq<T>)
    requires |s| > 0
    ensures s[..|s| - 1] + [s[|s| - 1]] == s
  {
  }

  /** An attempt that ends the loop, with the debugger call it caused
      logged after the recorded ones, leaves the loop Stopped. */
  lemma RoundStops(h: Machine, plan: string, code: string, quality: string, now: real, fs0: FileMap,
                   log0: seq<LlmCall>, renders0: seq<RenderCall>, rec: Record,
                   res: Result<Path>, fixed: Result<string>, step: Step, runs: seq<RenderCall>,
                   fs: FileMap, llmLog: seq<LlmCall>, renderLog: seq<RenderCall>)
    requires Progress(h, plan, code, quality, now, fs0, |log0|, |renders0|, rec)
    requires Tried(h, quality, now, fs0, renders0, rec, fs, renderLog, res, step, runs)
    requires res.Ok? || |rec.codes| == MaxDebugAttempts || fixed.Err?
    requires res.Err? && |rec.codes| < MaxDebugAttempts ==> fixed == h.LlmReply(|log0| + |rec.repairs|)
    requires llmLog == log0 + rec.calls + RepairCall(plan, rec, res)
    ensures Stopped(h, plan, code, quality, now, fs0, log0, renders0, rec, res, fixed, step, runs, fs, llmLog, renderLog)
  {
    AppendAssoc(log0, rec.calls, RepairCall(plan, rec, res));
  }

  /** A failed attempt with attempts left whose repair answered keeps the
      loop's invariant for the record grown by that attempt. */
  lemma RoundContinues(h: Machine, plan: string, code: string, quality: string, now: real, fs0: FileMap,
                       log0: seq<LlmCall>, renders0: seq<RenderCall>, rec: Record,
                       res: Result<Path>, fixed: Result<string>, step: Step, runs: seq<RenderCall>,
                       fs: FileMap, llmLog: seq<LlmCall>, renderLog: seq<RenderCall>)
    requires Progress(h, plan, code, quality, now, fs0, |log0|, |renders0|, rec) && |rec.codes| < MaxDebugAttempts
    requires Tried(h, quality, now, fs0, renders0, rec, fs, renderLog, res, step, runs)
    requires res.Err? && fixed.Ok? && fixed == h.LlmReply(|log0| + |rec.repairs|)
    requires llmLog == log0 + rec.calls + RepairCall(plan, rec, res)
    ensures Looping(h, plan, code, quality, now, fs0, log0, renders0, Continued(plan, rec, fs, step, runs, res, fixed),
                    fs, llmLog, renderLog)
  {
    ProgressRepaired(h, plan, code, quality, now, fs0, |log0|, |renders0|, rec, fs, step, runs, res, fixed);
    AppendAssoc(log0, rec.calls, RepairCall(plan, rec, res));
  }

  /** One pass of the loop body after the attempts recorded in rec: the
      attempt with the last recorded script, and, when it failed with
      attempts left, the debugger's answer fixed. Either the loop stops
      here, or the failure was repaired and the record grows by this
      attempt. */
  method RepairRound(h: Machine, plan: string, first: string, code: string, attempt: nat, quality: string, now: real,
                     ghost fs0: FileMap, ghost log0: seq<LlmCall>, ghost renders0: seq<RenderCall>, ghost rec: Record)
    returns (res: Result<Path>, fixed: Result<string>, ghost step: Step, ghost runs: seq<RenderCall>)
    requires h.Valid() && Looping(h, plan, first, quality, now, fs0, log0, renders0, rec, h.fs, h.llmLog, h.renderLog)
    requires attempt == |rec.codes| && code == rec.codes[attempt - 1]
    modifies h`fs, h`llmLog, h`renderLog
    ensures res.Ok? || attempt == MaxDebugAttempts || fixed.Err? ==>
      Stopped(h, plan, first, quality, now, fs0, log0, renders0, rec, res, fixed, step, runs, h.fs, h.llmLog, h.renderLog)
    ensures res.Err? && attempt < MaxDebugAttempts && fixed.Ok? ==>
      Looping(h, plan, first, quality, now, fs0, log0, renders0, Continued(plan, rec, h.fs, step, runs, res, fixed),
              h.fs, h.llmLog, h.renderLog)
  {
    res, step, runs := TrackedAttempt(h, code, quality, now, fs0, renders0, rec);
    fixed := Ok("");
    if res.Err? && attempt < MaxDebugAttempts {
      fixed := h.Ask(DebugCode(plan, code, Str(res.error)));
    }
    if res.Err? && attempt < MaxDebugAttempts && fixed.Ok? {
      RoundContinues(h, plan, first, quality, now, fs0, log0, renders0, rec, res, fixed, step, runs,
                     h.fs, h.llmLog, h.renderLog);
    } else {
      RoundStops(h, plan, first, quality, now, fs0, log0, renders0, rec, res, fixed, step, runs,
                 h.fs, h.llmLog, h.renderLog);
    }
  }

  /** The while loop of the job: up to MaxDebugAttempts render attempts with a
      repair between failures. rec records the attempts that failed and were
      repaired; the attempt after them (step, runs, res) ends the loop, and
      outcome is what the loop returns or raises. */
  method RepairAttempts(h: Machine, plan: string, code: string, quality: string, now: real)
    returns (outcome: Result<Path>, res: Result<Path>, fixed: Result<string>,
             ghost rec: Record, ghost step: Step, ghost runs: seq<RenderCall>)
    requires h.Valid()
    modifies h`fs, h`llmLog, h`renderLog
    ensures Stopped(h, plan, code, quality, now, old(h.fs), old(h.llmLog), old(h.renderLog), rec, res, fixed, step, runs,
                    h.fs, h.llmLog, h.renderLog)
    ensures outcome == LoopExit(rec, res, fixed)
  {
    ghost var fs0, log0, renders0 := h.fs, h.llmLog, h.renderLog;
    var current := code;
    rec := Record([code], [], [], [], [h.fs], [], []);
    var attempt := 1;
    while attempt <= MaxDebugAttempts
      invariant 1 <= attempt <= MaxDebugAttempts && |rec.codes| == attempt && rec.codes[attempt - 1] == current
      invariant Looping(h, plan, code, quality, now, fs0, log0, renders0, rec, h.fs, h.llmLog, h.renderLog)
      decreases MaxDebugAttempts - attempt
    {
      res, fixed, step, runs := RepairRound(h, plan, code, current, attempt, quality, now, fs0, log0, renders0, rec);
      if res.Ok? {
        outcome := res;
        return;
      }
      // A failure of the last attempt ends the job with the summary error.
      if attempt == MaxDebugAttempts {
        outcome := Err(RuntimeError(FinalMessage(Str(res.error))));
        return;
      }
      // Otherwise the debugger was asked for a fix; its own error ends the job.
      if fixed.Err? {
        outcome := Err(fixed.error);
        return;
      }
      rec := Continued(plan, rec, h.fs, step, runs, res, fixed);
      current := fixed.value;
      attempt := attempt + 1;
    }
    // The invariant keeps attempt within bounds, so the loop is only left
    // through one of the returns above.
    assert false;
  }

  /** The try region of the job as a whole: it ran as RepairLoop over what the
      attempts returned (results) and what the debugger answered (replies),
      and those are the oracles' answers. Every way out of the loop is one of
      its three exits, so the job's closing RuntimeError with
      UnexpectedExitMessage is never raised. */
  method RunRepairLoop(h: Machine, plan: string, code: string, quality: string, now: real)
    returns (outcome: Result<Path>, ghost results: seq<Result<Path>>, ghost replies: seq<Result<string>>,
             ghost states: seq<FileMap>, ghost steps: seq<Step>, ghost renders: seq<RenderCall>)
    requires h.Valid()
    modifies h`fs, h`llmLog, h`renderLog
    ensures LoopRan(h, old(h.fs), |old(h.llmLog)|, |old(h.renderLog)|, plan, code, quality, now,
                    results, replies, states, steps, renders)
    ensures var t := RepairLoop(plan, code, 1, results, replies);
      outcome == t.outcome && h.llmLog == old(h.llmLog) + t.debugCalls &&
      h.fs == states[|steps|] && h.renderLog == old(h.renderLog) + renders
    ensures forall p :: p in old(h.fs) && !Under(p, h.MediaDir()) ==>
      p in h.fs && (h.fs[p] == old(h.fs)[p] || (outcome.Ok? && Under(p, outcome.value)))
    ensures forall p :: p in h.fs && p !in old(h.fs) ==>
      Under(p, h.MediaDir()) || ChildOf(p, h.tempDir) || p == h.FinalDir() || (outcome.Ok? && Under(p, outcome.value))
    ensures MkdirOk(old(h.fs), h.MediaDir()) ==> h.MediaDir() in h.fs && h.fs[h.MediaDir()].Directory?
    ensures !MkdirOk(old(h.fs), h.MediaDir()) ==>
      outcome.Err? && h.MediaDir() in h.fs && h.fs[h.MediaDir()] == old(h.fs)[h.MediaDir()]
    ensures outcome.Ok? ==>
      outcome.value in h.fs && ChildOf(outcome.value, h.FinalDir()) &&
      EndsWith(Name(outcome.value), "_" + IntToString(Trunc(now)) + ".mp4")
  {
    ghost var llmBase, runBase := |h.llmLog|, |h.renderLog|;
    var res, fixed;
    ghost var rec, step, runs;
    outcome, res, fixed, rec, step, runs := RepairAttempts(h, plan, code, quality, now);
    results, replies := ProgressStops(h, plan, code, quality, now, old(h.fs), llmBase, runBase, rec,
                                      h.fs, step, runs, res, fixed);
    states, steps, renders := rec.states + [h.fs], rec.steps + [step], rec.renders + runs;
  }

  /** The whole job: plan, code, the repair loop, then removal of the
      workspace whatever the loop did. Nothing outside the workspace changes
      except new script files, final_videos itself and, on success, the
      returned path. */
  method ProcessPromptToVideo(h: Machine, prompt: string, quality: string, now: real)
    returns (r: Result<Path>, ghost results: seq<Result<Path>>, ghost replies: seq<Result<string>>,
             ghost states: seq<FileMap>, ghost steps: seq<Step>, ghost renders: seq<RenderCall>)
    requires h.Valid()
    modifies h`fs, h`llmLog, h`renderLog
    ensures |results| == MaxDebugAttempts && |replies| == MaxDebugAttempts - 1
    ensures var k := |old(h.llmLog)|;
      var plan := h.LlmReply(k);
      var code := h.LlmReply(k + 1);
      if plan.Err? then
        r == Err(plan.error) && h.llmLog == old(h.llmLog) + [CreatePlan(prompt)] &&
        h.fs == old(h.fs) && h.renderLog == old(h.renderLog)
      else if code.Err? then
        r == Err(code.error) && h.llmLog == old(h.llmLog) + [CreatePlan(prompt), CreateCode(plan.value)] &&
        h.fs == old(h.fs) && h.renderLog == old(h.renderLog)
      else
        LoopRan(h, old(h.fs), k + 2, |old(h.renderLog)|, plan.value, code.value, quality, now,
                results, replies, states, steps, renders) &&
        var t := RepairLoop(plan.value, code.value, 1, results, replies);
        h.llmLog == old(h.llmLog) + [CreatePlan(prompt), CreateCode(plan.value)] + t.debugCalls &&
        h.renderLog == old(h.renderLog) + renders &&
        (MkdirOk(old(h.fs), h.MediaDir()) ==>
           r == t.outcome && h.fs == RemoveTree(states[|steps|], h.MediaDir())) &&
        (!MkdirOk(old(h.fs), h.MediaDir()) ==>
           r == Err(OSError(20, "Not a directory", h.MediaDir())) && h.fs == states[|steps|])
    ensures forall p :: p in old(h.fs) && !Under(p, h.MediaDir()) ==>
      p in h.fs && (h.fs[p] == old(h.fs)[p] || (r.Ok? && Under(p, r.value)))
    ensures forall p :: p in h.fs && p !in old(h.fs) ==>
      Under(p, h.MediaDir()) || ChildOf(p, h.tempDir) || p == h.FinalDir() || (r.Ok? && Under(p, r.value))
    ensures r.Ok? ==> r.value in h.fs && ChildOf(r.value, h.FinalDir()) && !Under(r.value, h.MediaDir())
    ensures r.Ok? ==> EndsWith(Name(r.value), "_" + IntToString(Trunc(now)) + ".mp4")
  {
    var m := h.MediaDir();
    results, replies := Unused(MaxDebugAttempts, Err(RuntimeError(""))), Unused(MaxDebugAttempts - 1, Ok(""));
    states, steps, renders := [h.fs], [], [];

    var plan := h.Ask(CreatePlan(prompt));
    if plan.Err? {
      return Err(plan.error), results, replies, states, steps, renders;
    }
    var code := h.Ask(CreateCode(plan.value));
    if code.Err? {
      return Err(code.error), results, replies, states, steps, renders;
    }
    assert h.llmLog == old(h.llmLog) + [CreatePlan(prompt), CreateCode(plan.value)];

    // try:
    var outcome;
    outcome, results, replies, states, steps, renders := RunRepairLoop(h, plan.value, code.value, quality, now);

    // finally:
    WorkspacesApart(h);
    if m in h.fs {
      if h.fs[m].Directory? {
        h.fs := RemoveTree(h.fs, m);
        r := outcome;
      } else {
        r := Err(OSError(20, "Not a directory", m));
      }
    } else {
      r := outcome;
    }
  }

  /** Closes the loop's bookkeeping when the attempt after `|codes| - 1`
      repairs ends it: with its success `res`, with the final failure, or with
      the failed repair `reply`. The outcomes of attempts never made are padding. */
  lemma LoopStops(plan: string, codes: seq<string>, failed: seq<Result<Path>>, repairs: seq<Result<string>>,
                  calls: seq<LlmCall>, res: Result<Path>, reply: Result<string>)
    returns (results: seq<Result<Path>>, replies: seq<Result<string>>)
    requires 1 <= |codes| <= MaxDebugAttempts
    requires |failed| == |repairs| == |codes| - 1
    requires Repaired(plan, codes, |codes| - 1, failed, repairs, calls)
    requires res.Ok? || |codes| == MaxDebugAttempts || reply.Err?
    ensures |results| == MaxDebugAttempts && |replies| == MaxDebugAttempts - 1
    ensures forall i :: 0 <= i < |failed| ==> results[i] == failed[i] && replies[i] == repairs[i]
    ensures results[|failed|] == res && (|codes| < MaxDebugAttempts ==> replies[|failed|] == reply)
    ensures var t := RepairLoop(plan, codes[0], 1, results, replies);
      var last := |codes| - 1;
      t.rendered == codes &&
      (res.Ok? ==> t.outcome == res && t.debugCalls == calls) &&
      (res.Err? && |codes| == MaxDebugAttempts ==>
         t.outcome == Err(RuntimeError(FinalMessage(Str(res.error)))) && t.debugCalls == calls) &&
      (res.Err? && |codes| < MaxDebugAttempts ==>
         t.outcome == Err(reply.error) && t.debugCalls == calls + [DebugCode(plan, codes[last], Str(res.error))])
  {
    var k := |codes| - 1;
    results := failed + [res] + Unused(MaxDebugAttempts - k - 1, res);
    replies := if k + 1 == MaxDebugAttempts then repairs else repairs + [reply] + Unused(MaxDebugAttempts - k - 2, reply);
    assert results[k] == res;
    assert k + 1 < MaxDebugAttempts ==> replies[k] == reply;
    assert forall i :: 0 <= i < k ==> results[i] == failed[i] && replies[i] == repairs[i];
    RepairLoopAfterRepairs(plan, codes, k, results, replies, calls);
    var u := RepairLoop(plan, codes[k], k + 1, results, replies);
    assert u.rendered == [codes[k]];
    SplitLast(codes);
  }
}
