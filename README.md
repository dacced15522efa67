# ManimAI backend, modelled in Dafny

ManimAI turns a natural-language prompt into an animation video. A planner
model writes a plan, a coder model writes a Manim script from the plan, and
the backend renders that script with the `manim` command-line tool. When a
render fails, a debugger model gets the plan, the broken script and the error
text and returns a fixed script. The backend renders at most three times. A
successful video is copied from the shared `temp_media` workspace to durable
storage in `final_videos` under a name with a timestamp. Once the render
loop has started, the workspace is removed when the job ends, whatever the
loop did, unless a file stands in its place; a planner or coder error ends
the job before that and leaves the workspace as it was. A separate sweep
deletes videos in `final_videos` that are more than 24 hours old.

This project models two files of the backend:

- `backend_processor.py` (module `BackendProcessor`):
  - `_render_manim_video` becomes `RenderManimVideo`, with its try region and
    finally split out as `RunAndCollect`.
  - The success branch of the loop body becomes `SaveFinalVideo`, built from
    `CopyToFinal` and `CopyFile` (`shutil.copy`).
  - `process_prompt_to_video` becomes `ProcessPromptToVideo`, with its loop as
    `RunRepairLoop`.
  - The repair loop is also stated as a pure state machine, `RepairLoop`. It
    runs over the outcomes of the attempts and the debugger's answers, and
    the loop's properties are lemmas about it. `RunRepairLoop` is proved to
    run as `RepairLoop` over the answers the oracles actually gave: the
    debugger's answers are tools.py's next answers, attempt i + 1 rendered
    `RepairLoop`'s i-th script with manim's next run, and the outcome and
    the debugger calls are `RepairLoop`'s.
- `clean_up_videos.py` (module `CleanUpVideos`): `cleanup_old_videos` becomes
  `CleanupOldVideos`. It is proved to remove exactly the set `Doomed`, and the
  sweep's properties are lemmas about that set.

Supporting modules:

- `Text`: Python's `str(int)`, `int(float)`, `os.path.splitext`,
  `PurePath.stem` and the `*.mp4` glob pattern.
- `Files`: paths and the filesystem as a map from path to entry.
  `ChildPaths` is `os.listdir`, `RemoveTree` is `shutil.rmtree` and
  `Mp4Files` is `Path.glob("*.mp4")`. Each is a set or map comprehension
  whose contract gives membership and content, and they are used by the
  contracts below rather than proved about on their own.
- `Host`: exceptions and their `str()` (`Str`), and the `Machine` class.

`Machine` holds the mutable state:

- the filesystem;
- a log of calls into the three model functions of `tools.py`;
- a log of `manim` subprocess runs.

The model functions and the renderer are oracles fixed when the machine is
built: the k-th call gets the k-th answer (`LlmReply(k)`, `ManimRun(k)`). A
manim run deletes some entries and writes some files. `Machine.Valid()`
states the one assumption about the renderer: it deletes and writes only
strictly below `temp_media`, and tempfile's directory is not inside
`temp_media`.

Several definitions are not rows of the table below because they state
nothing on their own. They are the vocabulary the contracts are written in:

- `RenderCommand`, `VideoDir`, `UniqueFilename` and `CopyTarget` compute
  the argument vector, the video folder, the copy's name and
  `shutil.copy`'s target, at lines 65-69, 82, 145 and 149 of
  `backend_processor.py`. `Str` is `str()` of an exception.
- `MkdirOk`, `ReachesTry`, `RenderOutcome`, `Rendered` and `RenderCalls`
  describe one render attempt. `SavedTo` describes the success branch, and
  `Attempted` describes one loop body.
- `Ran`, `Answered` and `RunsOf` tie a sequence of attempts to the state
  they ran on, the debugger's answers to tools.py's answers, and the manim
  runs to the scripts. `LoopRan` combines them with `RepairLoop`.
- `Record`, `Progress`, `Continued`, `Tried`, `Looping`, `Stopped`,
  `LoopExit` and `RepairCall` are the loop's bookkeeping and invariant.

## Model

| member | source | states |
|---|---|---|
| BackendProcessor.QualityTablesAgree | backend_processor.py:37-50 | both quality tables cover exactly the four qualities, so a quality that passes the flag lookup at line 67 also finds its folder at line 82 |
| BackendProcessor.QualityTablesInjective | backend_processor.py:37-50 | no two qualities share a manim flag or an output folder |
| BackendProcessor.RenderCommandInjective | backend_processor.py:65-69 | the argument vector determines the script, the quality and the media directory, and vice versa |
| BackendProcessor.RunAndCollect | backend_processor.py:72-101 | exactly one manim run with the command for this script and quality; a launch error passes through; a non-zero exit raises RuntimeError carrying stderr verbatim; no `*.mp4` in media/videos/<stem>/<folder> raises the fixed FileNotFoundError; otherwise one of the videos found is returned; the script file is gone on every way out |
| BackendProcessor.RenderManimVideo | backend_processor.py:54-101 | the script gets a fresh temporary name; a file where temp_media should be raises errno 17 before any run; an unknown quality raises KeyError before any run; both leave the script behind; otherwise the outcome of the try region; a returned video lies under temp_media and exists |
| BackendProcessor.ScriptOutsideMedia | backend_processor.py:54-61 | the script tempfile creates is neither temp_media nor under it, so the renderer cannot touch it and rmtree does not reach it |
| BackendProcessor.CopyFile | backend_processor.py:149 | shutil.copy: errno 2 for a missing source, errno 21 for a directory source or target, otherwise the target holds the source's content and nothing else changes |
| BackendProcessor.CopyToFinal | backend_processor.py:141-149 | final_videos is created, or errno 17 if a file is in its place; then the copy's cases; nothing outside final_videos changes and nothing disappears |
| BackendProcessor.UniqueFilenameOfGlobMatch | backend_processor.py:145 | a video named <base>.mp4 is copied as <base>_<whole seconds>.mp4 |
| BackendProcessor.UniqueFilenameSeparatesSeconds | backend_processor.py:145 | copies of one video get the same name exactly when they are made in the same whole second |
| BackendProcessor.UniqueFilenameSuffix | backend_processor.py:145 | the copy's name ends with "_", the whole seconds and ".mp4" |
| BackendProcessor.SaveFinalVideo | backend_processor.py:141-153 | the success branch: the path returned is a direct child of final_videos, exists, and is named with the timestamp suffix; its error cases are those of mkdir and copy |
| BackendProcessor.Attempt | backend_processor.py:137-153 | one loop body ends as Attempted: the render attempt with the script tempfile picked, then on success the copy to final_videos; its manim runs, zero or one, are those of RenderCalls for that script; outside temp_media every entry keeps its content except under the returned path, and new paths are scripts, final_videos or under the returned path; a file in place of temp_media makes the attempt fail and stays untouched; a returned path is a timestamped copy in final_videos |
| BackendProcessor.FinalMessageText | backend_processor.py:162-168 | the summary error says "after 3 attempts" and ends with "Last error: " and the last failure text verbatim |
| BackendProcessor.RepairLoop | backend_processor.py:134-176 | between one and three scripts are rendered, the first being the coder's; there are at most two debugger calls, one per rendered script that is not the last, plus possibly one for the last |
| BackendProcessor.RepairLoopOutcome | backend_processor.py:134-176 | every attempt before the last one made failed and was repaired; the loop returns the last attempt's path exactly when that attempt succeeded; otherwise it raises the debugger's error, or after attempt 3 the summary error with the last failure text |
| BackendProcessor.RepairLoopThreadsPlan | backend_processor.py:155-176 | every debugger call carries the unchanged plan, the script that just failed and str() of its failure; each answer is the next script rendered |
| BackendProcessor.RepairLoopFirstSuccess | backend_processor.py:134-153 | if attempt k+1 is the first success and all earlier repairs answered, the job renders k+1 times, calls the debugger k times and returns that attempt's path |
| BackendProcessor.RepairLoopAllFail | backend_processor.py:160-176 | if all three attempts fail and both repairs answer, three renders and two debugger calls are made, and the summary error carries the third failure |
| BackendProcessor.RepairLoopPrefix | backend_processor.py:134-176 | outcomes of attempts and repairs the loop never reaches have no effect on the run |
| BackendProcessor.RepairLoopStep | backend_processor.py:155-176 | after a failed attempt with attempts left and an answering debugger, the loop's trace is this script, then the debugger call carrying the plan, this script and str() of its failure, then the trace of the next attempt with the repaired script |
| BackendProcessor.RepairLoopAfterRepairs | backend_processor.py:134-176 | after k failed and repaired attempts, the run is the recorded prefix followed by the loop started at attempt k+1 |
| BackendProcessor.AttemptedWithoutRun | backend_processor.py:54-69 | an attempt stopped by the workspace mkdir or the quality lookup does not depend on what manim would do, since it never runs manim |
| BackendProcessor.RepairedExtend | backend_processor.py:155-176 | one more failed attempt whose debugger call answered extends the chain of repairs: the answer is the next script, and the call carries the plan, the failed script and str() of its failure |
| BackendProcessor.RecordExtend | backend_processor.py:134-137 | an attempt made on the state the recorded attempts left, with manim's next run, is one more step of Ran and RunsOf |
| BackendProcessor.TrackedAttempt | backend_processor.py:134-153 | one loop body after the recorded attempts is Tried: one more step of Ran and RunsOf, its runs logged after the recorded ones, the frame outside temp_media kept, and a success is a timestamped copy in final_videos |
| BackendProcessor.ProgressRepaired | backend_processor.py:155-176 | a failed attempt with attempts left, repaired by tools.py's next answer, keeps the loop's invariant Progress for the grown record |
| BackendProcessor.RoundContinues | backend_processor.py:170-177 | the same step for the whole state: the call log and the run log still hold exactly what the grown record says, so the loop invariant Looping holds again |
| BackendProcessor.RoundStops | backend_processor.py:150-176 | an attempt that succeeds, is the third, or whose repair fails leaves the loop Stopped, with the debugger call it caused logged after the recorded ones |
| BackendProcessor.RepairRound | backend_processor.py:135-177 | one pass of the loop body: the attempt with the current script, then the debugger call when it failed with attempts left; either the loop stops there (Stopped) or the invariant holds again for the grown record (Looping) |
| BackendProcessor.RepairAttempts | backend_processor.py:134-176 | the for loop: it ends Stopped after the recorded repaired failures and one final attempt, and returns LoopExit of them: the success, the summary error after attempt 3, or the debugger's error |
| BackendProcessor.LoopStops | backend_processor.py:134-176 | when the loop stops after k repaired failures, the padded results and replies make RepairLoop render exactly the recorded scripts, with the same outcome and the same debugger calls |
| BackendProcessor.ProgressStops | backend_processor.py:134-176 | the same for the whole record: the loop ran as LoopRan over the padded results and replies, and RepairLoop's outcome and debugger calls are LoopExit and the recorded calls plus RepairCall |
| BackendProcessor.RunRepairLoop | backend_processor.py:133-176 | with n and m the lengths of the call log and the run log before the loop: replies[i] is tools.py's answer to call n + i for every debugger call made; attempt i + 1 started on states[i] with RepairLoop's i-th script, met manim's run m + i and ended with results[i]; the outcome and the new call log entries are RepairLoop's over these; the run log grows by one run per attempt that got past the workspace and quality checks; outside temp_media every existing entry keeps its content except at the returned path, and the only new paths are script files, final_videos and the returned path; a returned path is a timestamped copy in final_videos, so the raise at line 187 is unreachable |
| BackendProcessor.ProcessPromptToVideo | backend_processor.py:120-187 | the plan and the code are tools.py's answers to the next two calls; a planner or coder error passes through before anything is rendered or changed; otherwise the loop runs as in RunRepairLoop with the debugger's answers numbered from n + 2, where n is the length of the call log before the job, and afterwards temp_media is removed with everything under it and the result is the loop's; a file in place of temp_media makes the finally raise errno 20 instead; outside temp_media nothing is removed, every entry keeps its content except at the returned path, and the only new paths are script files, final_videos and the returned path; a returned video exists in final_videos, is not under temp_media and carries the timestamp suffix |
| Host.Machine.Ask | backend_processor.py:124-128 | a call into tools.py is appended to the call log and answered with LlmReply for that call's number |
| Host.Machine.RunManim | backend_processor.py:74-80 | a manim run is appended to the run log, its outcome is ManimRun for that run's number, and the filesystem becomes AfterRun: its deletions applied, then its written files |
| Host.AfterRunFrame | backend_processor.py:74-80 | a run that deletes and writes only strictly below temp_media leaves temp_media itself and every path outside it as it was |
| Host.WorkspacesApart | backend_processor.py:141 | final_videos and temp_media are distinct and neither holds the other, so removing temp_media never touches a saved video |
| Files.FreshScriptStem | backend_processor.py:54 | tempfile can always find a script name that is not taken yet |
| Text.IntToStringRoundTrip | backend_processor.py:145 | the decimal text of the timestamp reads back as the same integer |
| Text.IntToStringInjective | backend_processor.py:145 | two different integers never print the same way |
| Text.Trunc | backend_processor.py:145 | int() of the clock truncates toward zero |
| Text.SplitextOfGlobMatch | backend_processor.py:145 | os.path.splitext of a glob match drops ".mp4", unless what precedes it is empty or only dots |
| Text.PathStemOfScript | backend_processor.py:82 | the stem of the script's name is the name tempfile chose, without ".py" |
| CleanUpVideos.Doomed | clean_up_videos.py:25-37 | the files one sweep removes are all among the entries os.listdir returns |
| CleanUpVideos.CleanupOldVideos | clean_up_videos.py:12-39 | a missing final_videos means nothing is done and the count is 0; a file in its place makes os.listdir raise errno 20; otherwise exactly the Doomed entries are removed and the count returned is their number |
| CleanUpVideos.SweepRule | clean_up_videos.py:28-36 | for an entry of the filesystem: it is in Doomed if and only if it is a regular file directly in the directory, its age is strictly more than 86400 seconds and its removal does not raise |
| CleanUpVideos.BoundaryFileKept | clean_up_videos.py:34 | a file exactly 86400 seconds old is kept |
| CleanUpVideos.SweepKeepsOthers | clean_up_videos.py:25-39 | entries outside the directory, subdirectories and files whose removal raised stay unchanged |
| CleanUpVideos.SweepIdempotent | clean_up_videos.py:22-37 | a second sweep at the same instant deletes nothing |
| CleanUpVideos.SweepMonotoneInTime | clean_up_videos.py:22-34 | a later sweep would delete at least what an earlier one would |
| CleanUpVideos.SweepCount | clean_up_videos.py:23-37 | the count equals the number of entries that disappeared and never exceeds the number of directory entries |

## Left out

- The filesystem is a map from path to entry and is not required to be a consistent tree. Symbolic links, special files and permissions are not modelled.
- The model functions of `tools.py` and the `manim` process are oracles, given as the machine's `llm` and `manim` functions. Their internals, prompts and network use are not part of this model.
- Host.Machine.Valid: the renderer is assumed to delete and write only strictly below temp_media. A renderer that touches other paths, or temp_media itself, is not modelled.
- BackendProcessor.RunAndCollect: returns some `*.mp4` found rather than "the first" one, because the order of `Path.glob` is unspecified.
- CleanUpVideos.CleanupOldVideos: visits the entries in an arbitrary order, as `os.listdir` gives no order. The result does not depend on the order.
- CleanUpVideos.CleanupOldVideos: the set `undeletable` stands for the files whose `stat` or `os.remove` raises OSError. The errors themselves are not modelled.
- CleanUpVideos.CleanupOldVideos: returns `files_deleted` instead of printing it.
- All `print` output and logging is left out, and so is the `attempt` argument of `_render_manim_video`, which is used only for printing.
- The clock is a parameter `now`. It does not advance within a job, so the script's mtime and the copy's timestamp share one reading.
- Two jobs running at once share `temp_media`. Concurrency is not modelled: each job runs alone on the machine.
- The byte encoding of the script (`encoding='utf-8'`) and decoding errors of the subprocess output are not modelled. Text is `seq<char>`.
- `str()` of a KeyError is modelled as the key in single quotes. Python's repr escapes quotes and special characters in the key, which is not modelled.
- The exact exception `shutil.rmtree` raises on a non-directory depends on the Python version. The model raises OSError errno 20.
- BackendProcessor.RunRepairLoop: `results` and `replies` are padded to full length with values nobody reads, so the loop is stated over fixed-length sequences. RepairLoopPrefix shows the padding has no effect.
- BackendProcessor.RenderManimVideo: when temp_media cannot be created or the quality is unknown, the temporary script is left behind. This is the source's behaviour, because both checks happen before the try region whose finally removes the script.
