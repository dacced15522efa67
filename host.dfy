/** The world the backend runs in: Python exceptions and their str(), the
    filesystem, and the collaborators the backend cannot see into — the three
    LLM calls of tools.py and the Manim subprocess — as oracles whose answers
    are fixed in advance and whose calls are logged. */
module Host {
  import opened Text
  import opened Files

  /** The exceptions the backend raises, catches or lets through. */
  datatype Exception =
    | RuntimeError(message: string)
    | FileNotFoundError(message: string)
    | KeyError(key: string)
      /** Any OSError raised with an errno, a reason and a path. */
    | OSError(errno: nat, reason: string, filename: Path)
      /** Whatever a collaborator (an LLM call, the subprocess launch) raises. */
    | External(text: string)

  /** str(e). A KeyError prints the repr of its key. */
  function Str(e: Exception): string
  {
    match e
    case RuntimeError(m) => m
    case FileNotFoundError(m) => m
    case KeyError(k) => "'" + k + "'"
    case OSError(n, why, f) => "[Errno " + IntToString(n) + "] " + why + ": '" + PathString(f) + "'"
    case External(t) => t
  }

  /** A value, or the exception raised instead. */
  datatype Result<T> = Ok(value: T) | Err(error: Exception)

  /** One call into tools.py, with its arguments. */
  datatype LlmCall =
    | CreatePlan(prompt: string)
    | CreateCode(plan: string)
    | DebugCode(plan: string, brokenCode: string, errorMessage: string)

  /** What one run of the manim subprocess does: it exits with a code and an
      error stream after deleting some entries and writing some files, or it
      cannot be started at all. */
  datatype ProcessRun =
    | Exited(returncode: int, stderr: string, written: FileMap, removed: set<Path>)
    | LaunchFailed(error: Exception)

  /** One manim invocation: the argument vector and the script text it read. */
  datatype RenderCall = RenderCall(argv: seq<string>, script: string)

  /** The filesystem after a run: what the process deleted is gone, and what
      it wrote overrides what was there. */
  function AfterRun(fs: FileMap, run: ProcessRun): FileMap
  {
    if run.Exited? then (fs - run.removed) + run.written else fs
  }

  /** The run deletes and writes only strictly below dir. */
  predicate WritesBelow(run: ProcessRun, dir: Path) {
    run.Exited? ==>
      (forall p :: p in run.written ==> Under(p, dir) && p != dir) &&
      (forall p :: p in run.removed ==> Under(p, dir) && p != dir)
  }

  /** A run that keeps below dir leaves dir itself and everything outside it
      as it was. */
  lemma AfterRunFrame(fs: FileMap, run: ProcessRun, dir: Path)
    requires WritesBelow(run, dir)
    ensures var fs' := AfterRun(fs, run);
      forall p :: !Under(p, dir) || p == dir ==> (p in fs' <==> p in fs) && (p in fs ==> fs'[p] == fs[p])
  {
  }

  class Machine {
    /** The filesystem. */
    var fs: FileMap
    /** Every call made into tools.py so far, oldest first. */
    var llmLog: seq<LlmCall>
    /** Every manim subprocess started so far, oldest first. */
    var renderLog: seq<RenderCall>

    /** Path.cwd() and tempfile's directory. */
    const cwd: Path
    const tempDir: Path
    /** The answer to the k-th call into tools.py. */
    const llm: nat -> Result<string>
    /** The outcome of the k-th manim run. */
    const manim: nat -> ProcessRun

    constructor (fs0: FileMap, cwd: Path, tempDir: Path, llm: nat -> Result<string>, manim: nat -> ProcessRun)
      ensures fs == fs0 && llmLog == [] && renderLog == []
      ensures this.cwd == cwd && this.tempDir == tempDir && this.llm == llm && this.manim == manim
    {
      this.fs := fs0;
      this.llmLog := [];
      this.renderLog := [];
      this.cwd := cwd;
      this.tempDir := tempDir;
      this.llm := llm;
      this.manim := manim;
    }

    /** tools.py's answer to its k-th call. */
    function LlmReply(k: nat): Result<string> { llm(k) }

    /** What the k-th manim run does. */
    function ManimRun(k: nat): ProcessRun { manim(k) }

    /** The shared render workspace, cwd/temp_media. */
    function MediaDir(): Path { cwd + ["temp_media"] }

    /** Durable storage, cwd/final_videos. */
    function FinalDir(): Path { cwd + ["final_videos"] }

    /** The renderer keeps to its media directory, which does not hold
        tempfile's directory. */
    ghost predicate Valid() {
      !Under(tempDir, MediaDir()) &&
      forall k: nat :: WritesBelow(ManimRun(k), MediaDir())
    }

    /** Calls tools.py; the answer is the oracle's for this call number. */
    method Ask(call: LlmCall) returns (reply: Result<string>)
      modifies this`llmLog
      ensures llmLog == old(llmLog) + [call]
      ensures reply == LlmReply(|old(llmLog)|)
    {
      reply := LlmReply(|llmLog|);
      llmLog := llmLog + [call];
    }

    /** subprocess.run of manim: logs the call and applies what the process wrote. */
    method RunManim(argv: seq<string>, script: string) returns (run: ProcessRun)
      modifies this`renderLog, this`fs
      ensures renderLog == old(renderLog) + [RenderCall(argv, script)]
      ensures run == ManimRun(|old(renderLog)|)
      ensures fs == AfterRun(old(fs), run)
    {
      run := ManimRun(|renderLog|);
      renderLog := renderLog + [RenderCall(argv, script)];
      fs := AfterRun(fs, run);
    }
  }

  /** The two workspace directories are distinct and neither holds the other. */
  lemma WorkspacesApart(m: Machine)
    ensures !Under(m.FinalDir(), m.MediaDir()) && !Under(m.MediaDir(), m.FinalDir())
    ensures forall p :: Under(p, m.FinalDir()) ==> !Under(p, m.MediaDir())
  {
    var n := |m.cwd|;
    assert m.FinalDir()[n] == "final_videos" && m.MediaDir()[n] == "temp_media";
    forall p | Under(p, m.FinalDir()) ensures !Under(p, m.MediaDir()) {
      assert p[n] == "final_videos";
    }
  }
}
