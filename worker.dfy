/** RServerEvaluator's job queue and the per-job procedure of its worker thread.
    Everything the worker learns from outside (the Rserve session starting or not, the reply
    of each `eval`, the exceptions those calls throw, what the output reader delivers, the
    SVG file) is an input to one job, a JobWorld. JobTrace states what the worker does with
    it; Evaluator.RunOnce carries it out step by step on the evaluator's state. */
module Worker {
  import opened Wrappers
  import opened RReply
  import opened SvgFix
  import opened Sink

  const BackendFailed: string := "... R language backend failed!"
  const InterruptedCode: int := 127
  const Interrupted: string := "Interrupted"
  const DevOffPrefix: string := "from dev.off(): "

  /** One `connection.eval(...)`: it returns, or throws RserveException carrying the
      request's return code and a message. */
  datatype Call<T> = Returns(value: T) | Fails(code: int, message: string)

  /** startRserve: the session comes up with a pid, fails before the pid is read, or fails
      after it (the initialisation call), in which case the pid stays recorded. */
  datatype Startup = Started(pid: int) | FailedEarly | FailedAfterPid(pid: int)

  /** waitForCapture: the readers' writes to the armed sink before it returns, or a wait
      that never returns. */
  datatype Capture = Delivers(writes: seq<Write>) | Stalls

  /** The SVG file after dev.off(): empty or missing, unreadable (an IOException that
      addSvgResults logs), or its text. */
  datatype Artifact = NoArtifact | Unreadable | SvgFile(contents: string)

  /** Everything outside the worker that one job depends on. `svgFuel` bounds the SVG
      rewrite loop, which the source does not bound. */
  datatype JobWorld = JobWorld(
    startup: Startup,
    svgOn: Call<()>,
    reply: Call<Option<RValue>>,
    printValue: Call<()>,
    capture: Capture,
    devOff: Call<()>,
    artifact: Artifact,
    co: Coercions,
    svgFuel: nat)

  /** The result classification, in the worker's order of tests. */
  datatype Classification =
    | NullReply
    | ErrorReply(message: string)
    | ErrorCheckThrows
    | TableReply(table: Table)
    | Invisible
    | Capturable

  /** The chain of tests in `run`: a null reply, then isError, then isDataFrame, then
      isVisible; the first that applies decides. */
  function Classify(reply: Option<RValue>, co: Coercions): (c: Classification)
    ensures c == NullReply <==> reply.None?
    ensures c.ErrorReply? || c == ErrorCheckThrows <==> reply.Some? && TryErrorOf(reply.value).Some?
    ensures c.TableReply? <==>
              reply.Some? && TryErrorOf(reply.value).None? && DataFrameOf(reply.value, co).Some?
    ensures c.TableReply? ==> Some(c.table) == DataFrameOf(reply.value, co)
    ensures c == Invisible <==>
              reply.Some? && TryErrorOf(reply.value).None? && DataFrameOf(reply.value, co).None? &&
              !IsVisible(reply.value)
    ensures c == Capturable <==>
              reply.Some? && TryErrorOf(reply.value).None? && DataFrameOf(reply.value, co).None? &&
              IsVisible(reply.value)
  {
    match reply
    case None => NullReply
    case Some(v) =>
      match IsError(v)
      case PrefixCheckThrows => ErrorCheckThrows
      case ErrorMessage(m) => ErrorReply(m)
      case NotAnError =>
        match DataFrameOf(v, co)
        case Some(t) => TableReply(t)
        case None => if IsVisible(v) then Capturable else Invisible
  }

  /** The error an RserveException from the inner `try` writes: return code 127 is the
      interrupt sent by cancelExecution. */
  function RserveError(code: int, message: string): (m: string)
    ensures code == InterruptedCode ==> m == Interrupted
    ensures code != InterruptedCode ==> m == message
  {
    if code == InterruptedCode then Interrupted else message
  }

  /** How the job ends: startup failed, finalised, an exception escaped to the loop's
      catch-all, or the worker blocked for good. */
  datatype JobEnd = StartupFailed | Finalised | Escaped | Hung

  /** The inner `try`: the sink writes so far, `isfinished`, and whether the job left the
      procedure early (escaped or hung). */
  datatype Phase = Phase(writes: seq<Write>, finished: bool, stop: Option<JobEnd>)

  /** What one job does: its end, the writes to its sink in order, the session state
      afterwards, and whether the readers were disarmed at the end. */
  datatype Trace = Trace(end: JobEnd, writes: seq<Write>, connected: bool, pid: int, disarmed: bool)

  function Caught(code: int, message: string): Phase {
    Phase([WriteError(RserveError(code, message))], true, None)
  }

  /** The inner `try` block of `run`, for a sink whose status was `st` when the job began. */
  function EvaluationPhase(w: JobWorld, st: Status): Phase {
    if w.svgOn.Fails? then Caught(w.svgOn.code, w.svgOn.message)
    else match w.reply
      case Fails(code, message) => Caught(code, message)
      case Returns(reply) =>
        match Classify(reply, w.co)
        case NullReply => Phase([WriteFinished(TextResult(""))], true, None)
        case ErrorCheckThrows => Phase([], false, Some(Escaped))
        case ErrorReply(m) => Phase([WriteError(m)], true, None)
        case TableReply(t) => Phase([WriteFinished(TableResult(t))], true, None)
        case Invisible => Phase([], false, None)
        case Capturable =>
          if w.printValue.Fails? then Caught(w.printValue.code, w.printValue.message)
          else match w.capture
            case Stalls => Phase([], false, Some(Hung))
            case Delivers(ws) => Phase(ws, Replay(st, ws).Finished?, None)
  }

  /** The writes after dev.off(): its failure becomes an error only for an unfinished job. */
  function DevOffWrites(w: JobWorld, finished: bool): seq<Write> {
    if w.devOff.Fails? && !finished then [WriteError(DevOffPrefix + w.devOff.message)] else []
  }

  /** Session start when there is no connection: the pid is reset to -1 first. */
  function Connect(connected: bool, pid: int, s: Startup): (bool, int) {
    if connected then (true, pid)
    else match s
      case Started(p) => (true, p)
      case FailedEarly => (false, -1)
      case FailedAfterPid(p) => (false, p)
  }

  /** After the inner `try`: dev.off(), then addSvgResults and the `finished("")` fallback
      for a job not yet finished. The job's end, the writes in order, and whether the
      readers are disarmed. */
  function Finalisation(w: JobWorld, finished: bool): (JobEnd, seq<Write>, bool) {
    var ws := DevOffWrites(w, finished);
    if finished then (Finalised, ws, true)
    else match w.artifact
      case SvgFile(contents) =>
        if |contents| == 0 then (Finalised, ws + [WriteFinished(TextResult(""))], true)
        else (match FixSvg(contents, w.svgFuel)
          case Done(t) => (Finalised, ws + [WriteFinished(TextResult(t))], true)
          case Crashed => (Escaped, ws, false)
          case OutOfFuel => (Hung, ws, false))
      case _ => (Finalised, ws + [WriteFinished(TextResult(""))], true)
  }

  /** One pass of the worker loop on a job, as a function of the world, the session state
      and the sink's status when the job is polled. */
  function JobTrace(w: JobWorld, connected: bool, pid: int, st: Status): Trace {
    var (c, p) := Connect(connected, pid, w.startup);
    if !c then Trace(StartupFailed, [WriteError(BackendFailed)], false, p, true)
    else
      var (end, ws, disarmed) := SessionTrace(w, st);
      Trace(end, ws, true, p, disarmed)
  }

  /** The job on a live session: the inner `try`, then finalisation unless the job left
      early. Its end, the writes in order, and whether the readers are disarmed. */
  function SessionTrace(w: JobWorld, st: Status): (JobEnd, seq<Write>, bool) {
    var ph := EvaluationPhase(w, st);
    if ph.stop.Some? then (ph.stop.value, ph.writes, false)
    else
      var (end, more, disarmed) := Finalisation(w, ph.finished);
      (end, ph.writes + more, disarmed)
  }

  /** Whether the job runs on a session: one already connected or one that starts now. */
  predicate OnSession(w: JobWorld, connected: bool) {
    connected || w.startup.Started?
  }

  /** The final status of the job's sink. */
  function FinalStatus(w: JobWorld, connected: bool, pid: int, st: Status): Status {
    Replay(st, JobTrace(w, connected, pid, st).writes)
  }

  /** A null reply finishes the job with "". */
  lemma NullReplyFinishesEmpty(w: JobWorld, connected: bool, pid: int, st: Status)
    requires OnSession(w, connected) && w.svgOn.Returns? && w.reply == Returns(None)
    ensures JobTrace(w, connected, pid, st).end == Finalised
    ensures FinalStatus(w, connected, pid, st) == Finished(TextResult(""))
  {
    ReplayLast(st, JobTrace(w, connected, pid, st).writes);
  }

  /** An error caught by R's `try` with message `m` makes the job fail with `m`, whatever
      the rest of the reply looks like. */
  lemma CaughtErrorReported(w: JobWorld, connected: bool, pid: int, st: Status, m: string)
    requires OnSession(w, connected) && w.svgOn.Returns? && w.reply.Returns? && w.reply.value.Some?
    requires TryErrorOf(w.reply.value.value) == Some(ErrorPrefix + m)
    ensures JobTrace(w, connected, pid, st).end == Finalised
    ensures FinalStatus(w, connected, pid, st) == Errored(m)
  {
    ReplayLast(st, JobTrace(w, connected, pid, st).writes);
    assert StartsWith(ErrorPrefix + m, ErrorPrefix) by {
      assert (ErrorPrefix + m)[..|ErrorPrefix|] == ErrorPrefix;
    }
    assert |ErrorPrefix + m| >= |ErrorPrefix|;
  }

  /** A try-error message shorter than the prefix makes isError throw: the exception reaches
      the loop's catch-all, nothing is written to the sink, and the readers stay armed. */
  lemma ShortTryErrorEscapes(w: JobWorld, connected: bool, pid: int, st: Status, msg: string)
    requires OnSession(w, connected) && w.svgOn.Returns? && w.reply.Returns? && w.reply.value.Some?
    requires TryErrorOf(w.reply.value.value) == Some(msg) && |msg| < |ErrorPrefix|
    ensures var t := JobTrace(w, connected, pid, st);
            t.end == Escaped && t.writes == [] && !t.disarmed
    ensures FinalStatus(w, connected, pid, st) == st
  {
    ReplayLast(st, JobTrace(w, connected, pid, st).writes);
  }

  /** A data frame finishes the job with its table, whether or not the value is visible. */
  lemma TableFinishes(w: JobWorld, connected: bool, pid: int, st: Status, t: Table)
    requires OnSession(w, connected) && w.svgOn.Returns? && w.reply.Returns? && w.reply.value.Some?
    requires TryErrorOf(w.reply.value.value).None? && DataFrameOf(w.reply.value.value, w.co) == Some(t)
    ensures JobTrace(w, connected, pid, st).end == Finalised
    ensures FinalStatus(w, connected, pid, st) == Finished(TableResult(t))
  {
    ReplayLast(st, JobTrace(w, connected, pid, st).writes);
  }

  /** A visible value is finished with what the output reader delivers. */
  lemma CapturedTextFinishes(w: JobWorld, connected: bool, pid: int, st: Status, text: string)
    requires OnSession(w, connected) && w.svgOn.Returns? && w.reply.Returns? && w.reply.value.Some?
    requires Classify(w.reply.value, w.co) == Capturable && w.printValue.Returns?
    requires w.capture == Delivers([WriteFinished(TextResult(text))])
    ensures JobTrace(w, connected, pid, st).end == Finalised
    ensures FinalStatus(w, connected, pid, st) == Finished(TextResult(text))
  {
    ReplayLast(st, [WriteFinished(TextResult(text))]);
    ReplayLast(st, JobTrace(w, connected, pid, st).writes);
  }

  /** An Rserve call that fails inside the inner `try` fails the job: with "Interrupted"
      for return code 127, with the exception's message otherwise. */
  lemma RserveFailureReported(w: JobWorld, connected: bool, pid: int, st: Status)
    requires OnSession(w, connected) && w.svgOn.Returns? && w.reply.Fails?
    ensures JobTrace(w, connected, pid, st).end == Finalised
    ensures FinalStatus(w, connected, pid, st) ==
              Errored(if w.reply.code == 127 then "Interrupted" else w.reply.message)
  {
    ReplayLast(st, JobTrace(w, connected, pid, st).writes);
  }

  /** Every job that reaches finalisation leaves its sink in a terminal state. */
  lemma {:induction false} FinalisedIsTerminal(w: JobWorld, connected: bool, pid: int, st: Status)
    requires JobTrace(w, connected, pid, st).end == Finalised
    ensures FinalStatus(w, connected, pid, st) != Pending
  {
    var (c, p) := Connect(connected, pid, w.startup);
    var ph := EvaluationPhase(w, st);
    var (end, more, disarmed) := Finalisation(w, ph.finished);
    ReplayAppend(st, ph.writes, more);
    if ph.finished {
      assert more == [];
      if ph.writes == [] {
        assert Replay(st, ph.writes).Finished?;
      } else {
        NoRegression(Replay(st, []), ph.writes);
      }
    } else {
      assert more != [];
      NoRegression(Replay(st, ph.writes), more);
    }
  }

  /** A job still unfinished after the inner `try` always ends Finished when it is
      finalised: the SVG markup or "" is written after any error from dev.off(), so that
      error never remains the job's status. */
  lemma {:induction false} UnfinishedEndsFinished(w: JobWorld, connected: bool, pid: int, st: Status)
    requires OnSession(w, connected)
    requires !EvaluationPhase(w, st).finished && JobTrace(w, connected, pid, st).end == Finalised
    ensures FinalStatus(w, connected, pid, st).Finished?
  {
    var ph := EvaluationPhase(w, st);
    var (end, more, disarmed) := Finalisation(w, ph.finished);
    ReplayAppend(st, ph.writes, more);
    ReplayLast(Replay(st, ph.writes), more);
  }

  /** A job still unfinished after the inner `try` whose plot file is non-empty and whose
      rewrite ends finishes with the rewritten markup, even after a dev.off() error. */
  lemma PlotFinishesWithSvg(w: JobWorld, connected: bool, pid: int, st: Status, t: string)
    requires OnSession(w, connected)
    requires EvaluationPhase(w, st).stop.None? && !EvaluationPhase(w, st).finished
    requires w.artifact.SvgFile? && |w.artifact.contents| > 0
    requires FixSvg(w.artifact.contents, w.svgFuel) == Done(t)
    ensures JobTrace(w, connected, pid, st).end == Finalised
    ensures FinalStatus(w, connected, pid, st) == Finished(TextResult(t))
  {
    var ph := EvaluationPhase(w, st);
    var (end, more, disarmed) := Finalisation(w, ph.finished);
    ReplayAppend(st, ph.writes, more);
    ReplayLast(Replay(st, ph.writes), more);
  }

  /** A job still unfinished after the inner `try` with no plot, an empty one, or one that
      cannot be read finishes with "", even after a dev.off() error. */
  lemma NoPlotFinishesEmpty(w: JobWorld, connected: bool, pid: int, st: Status)
    requires OnSession(w, connected)
    requires EvaluationPhase(w, st).stop.None? && !EvaluationPhase(w, st).finished
    requires !(w.artifact.SvgFile? && |w.artifact.contents| > 0)
    ensures JobTrace(w, connected, pid, st).end == Finalised
    ensures FinalStatus(w, connected, pid, st) == Finished(TextResult(""))
  {
    var ph := EvaluationPhase(w, st);
    var (end, more, disarmed) := Finalisation(w, ph.finished);
    ReplayAppend(st, ph.writes, more);
    ReplayLast(Replay(st, ph.writes), more);
  }

  /** When the SVG rewrite throws or never ends, the job leaves finalisation before any
      `finished` call: an error from dev.off() on an unfinished job stays its status, and
      the job escapes (the rewrite threw) or hangs (it did not end). */
  lemma DevOffErrorSurvivesRewriteFailure(w: JobWorld, connected: bool, pid: int, st: Status)
    requires OnSession(w, connected)
    requires EvaluationPhase(w, st).stop.None? && !EvaluationPhase(w, st).finished
    requires w.devOff.Fails? && w.artifact.SvgFile? && |w.artifact.contents| > 0
    requires !FixSvg(w.artifact.contents, w.svgFuel).Done?
    ensures JobTrace(w, connected, pid, st).end ==
              (if FixSvg(w.artifact.contents, w.svgFuel).Crashed? then Escaped else Hung)
    ensures FinalStatus(w, connected, pid, st) == Errored(DevOffPrefix + w.devOff.message)
  {
    var ph := EvaluationPhase(w, st);
    var more := [WriteError(DevOffPrefix + w.devOff.message)];
    assert Finalisation(w, false).1 == more;
    ReplayAppend(st, ph.writes, more);
  }

  /** The case is reachable: an invisible value whose plot is the lone `<use>` element
      ends with the dev.off() error and escapes. */
  lemma DevOffErrorSurvivesLoneUse(w: JobWorld, connected: bool, pid: int, st: Status)
    requires OnSession(w, connected) && w.svgOn.Returns? && w.reply.Returns?
    requires Classify(w.reply.value, w.co) == Invisible
    requires w.devOff.Fails? && w.artifact == SvgFile(LoneUse)
    ensures JobTrace(w, connected, pid, st).end == Escaped
    ensures FinalStatus(w, connected, pid, st) == Errored(DevOffPrefix + w.devOff.message)
  {
    LoneUseThrows(w.svgFuel);
    DevOffErrorSurvivesRewriteFailure(w, connected, pid, st);
  }

  /** A failure to start the session fails the job with the backend message and leaves the
      session absent, so the next job starts it again. */
  lemma StartupFailureRetries(w: JobWorld, pid: int, st: Status, w2: JobWorld, st2: Status)
    requires !w.startup.Started?
    ensures var t := JobTrace(w, false, pid, st);
            t.end == StartupFailed && t.writes == [WriteError(BackendFailed)] && !t.connected &&
            JobTrace(w2, t.connected, t.pid, st2).connected == w2.startup.Started?
    ensures FinalStatus(w, false, pid, st) == Errored(BackendFailed)
  {
    ReplayLast(st, JobTrace(w, false, pid, st).writes);
  }

  /** A failure before the pid is read leaves no pid to interrupt. */
  lemma EarlyStartupFailureClearsPid(w: JobWorld, pid: int, st: Status)
    requires w.startup == FailedEarly
    ensures JobTrace(w, false, pid, st).pid == -1
  {
  }

  /** Only a failed startup loses the session: whatever a job on a live session does, the
      connection and the pid stay. */
  lemma SessionKept(w: JobWorld, pid: int, st: Status)
    ensures JobTrace(w, true, pid, st).connected && JobTrace(w, true, pid, st).pid == pid
  {
  }

  /** A job polled by the worker: its code and its sink. */
  datatype Job = Job(code: string, sink: OutputSink)

  class Evaluator {
    /** jobQueue */
    var queue: seq<Job>
    /** The permits of syncObject. */
    var permits: nat
    var exit: bool
    /** `connection != null` */
    var connected: bool
    /** The worker's pid field (0 until startRserve first runs). */
    var pid: int
    /** The sink the output and error readers write to, if armed. */
    var armed: Option<OutputSink>
    /** The worker is blocked for good (a stalled capture or an endless SVG rewrite). */
    var hung: bool
    /** Every job ever submitted, and the jobs the worker has polled, in order. */
    ghost var submitted: seq<Job>
    ghost var started: seq<Job>

    /** Jobs are polled in submission order, and every queued job has a permit. */
    ghost predicate Valid()
      reads this
    {
      started + queue == submitted && |queue| <= permits
    }

    constructor ()
      ensures Valid() && fresh(this)
      ensures queue == [] && permits == 0 && !exit && !connected && pid == 0 && armed.None? && !hung
      ensures submitted == [] && started == []
    {
      queue := [];
      permits := 0;
      exit := false;
      connected := false;
      pid := 0;
      armed := None;
      hung := false;
      submitted := [];
      started := [];
    }

    /** evaluate: append the job and release one permit. */
    method Evaluate(sink: OutputSink, code: string)
      requires Valid()
      modifies this
      ensures Valid()
      ensures queue == old(queue) + [Job(code, sink)] && permits == old(permits) + 1
      ensures submitted == old(submitted) + [Job(code, sink)] && started == old(started)
      ensures exit == old(exit) && connected == old(connected) && pid == old(pid)
      ensures armed == old(armed) && hung == old(hung)
    {
      queue := queue + [Job(code, sink)];
      permits := permits + 1;
      submitted := submitted + [Job(code, sink)];
    }

    /** cancelExecution: the pid to send SIGINT to, if any. Nothing on Windows or while no
        pid is recorded. */
    method CancelExecution(windows: bool) returns (signalled: Option<int>)
      ensures windows ==> signalled.None?
      ensures !windows ==> (signalled.Some? <==> pid >= 0)
      ensures signalled.Some? ==> signalled.value == pid
    {
      if windows {
        return None;
      }
      if pid >= 0 {
        return Some(pid);
      }
      return None;
    }

    /** exit: set the flag, cancel, and release one permit so the worker sees the flag. */
    method Exit(windows: bool) returns (signalled: Option<int>)
      requires Valid()
      modifies this
      ensures Valid() && exit && permits == old(permits) + 1
      ensures queue == old(queue) && submitted == old(submitted) && started == old(started)
      ensures connected == old(connected) && pid == old(pid) && armed == old(armed) && hung == old(hung)
      ensures signalled == (if windows || pid < 0 then None else Some(pid))
    {
      exit := true;
      signalled := CancelExecution(windows);
      permits := permits + 1;
    }

    /** One iteration of the worker loop: take a permit, poll the queue, and run the job. */
    method RunOnce(w: JobWorld) returns (end: Option<JobEnd>, ghost t: Trace)
      requires Valid() && !exit && !hung && permits > 0
      modifies this, if |queue| > 0 then {queue[0].sink} else {}
      ensures Valid() && permits == old(permits) - 1 && exit == old(exit) && submitted == old(submitted)
      ensures old(queue) == [] ==>
                end.None? && queue == [] && started == old(started) && connected == old(connected) &&
                pid == old(pid) && armed == old(armed) && hung == old(hung)
      ensures old(queue) != [] ==>
                t == JobTrace(w, old(connected), old(pid), old(queue[0].sink.status)) &&
                end == Some(t.end) && queue == old(queue[1..]) && started == old(started) + [old(queue[0])] &&
                old(queue[0].sink).status == Replay(old(queue[0].sink.status), t.writes) &&
                connected == t.connected && pid == t.pid && hung == (t.end == Hung) &&
                armed == (if t.disarmed then None else Some(old(queue[0].sink)))
    {
      t := Trace(Finalised, [], false, 0, false);
      var job := Poll();
      if job.None? {
        return None, t;
      }
      end, t := RunPolled(job.value.sink, w);
    }

    /** Take a permit and poll the queue. */
    method Poll() returns (job: Option<Job>)
      requires Valid() && permits > 0
      modifies this
      ensures Valid() && permits == old(permits) - 1 && exit == old(exit) && submitted == old(submitted)
      ensures connected == old(connected) && pid == old(pid) && armed == old(armed) && hung == old(hung)
      ensures old(queue) == [] ==> job.None? && queue == [] && started == old(started)
      ensures old(queue) != [] ==>
                job == Some(old(queue[0])) && queue == old(queue[1..]) && started == old(started) + [old(queue[0])]
    {
      permits := permits - 1;
      if queue == [] {
        return None;
      }
      job := Some(queue[0]);
      queue := queue[1..];
      started := started + [job.value];
    }

    /** The rest of the loop body for the polled job: start the session if there is none,
        arm the readers, run the job, and record a hang. */
    method RunPolled(sink: OutputSink, w: JobWorld) returns (end: Option<JobEnd>, ghost t: Trace)
      requires !hung
      modifies this, sink
      ensures t == JobTrace(w, old(connected), old(pid), old(sink.status))
      ensures end == Some(t.end) && sink.status == Replay(old(sink.status), t.writes) &&
              connected == t.connected && pid == t.pid && hung == (t.end == Hung) &&
              armed == (if t.disarmed then None else Some(sink))
      ensures queue == old(queue) && permits == old(permits) && exit == old(exit)
      ensures submitted == old(submitted) && started == old(started)
    {
      t := JobTrace(w, connected, pid, sink.status);
      if !connected {
        StartSession(w.startup);
        if !connected {
          armed := None;
          sink.Error(BackendFailed);
          return Some(StartupFailed), t;
        }
      }
      armed := Some(sink);
      var e, disarmed := RunJob(sink, w);
      hung := e == Hung;
      if disarmed {
        armed := None;
      }
      return Some(e), t;
    }

    /** The worker loop `while (!exit)`, one world per iteration, for as long as the
        worker can take a permit and is not blocked. The jobs it runs are the front of the
        queue, in the order they were submitted. */
    method Run(worlds: seq<JobWorld>) returns (ends: seq<Option<JobEnd>>, polled: nat)
      requires Valid() && !hung
      modifies this, set j | j in queue :: j.sink
      ensures Valid() && |ends| <= |worlds| && submitted == old(submitted) && exit == old(exit)
      ensures polled <= |old(queue)| && queue == old(queue)[polled..]
      ensures started == old(started) + old(queue)[..polled]
      ensures |ends| == |worlds| || exit || hung || permits == 0
    {
      ends, polled := [], 0;
      var i := 0;
      while i < |worlds| && !exit && !hung && permits > 0
        invariant Valid() && 0 <= i <= |worlds| && |ends| == i
        invariant submitted == old(submitted) && exit == old(exit)
        invariant polled <= |old(queue)| && queue == old(queue)[polled..]
        invariant started == old(started) + old(queue)[..polled]
        decreases |worlds| - i
      {
        if |queue| > 0 {
          assert queue[0] == old(queue)[polled];
        }
        var e, _ := RunOnce(worlds[i]);
        if e.Some? {
          assert old(queue)[..polled + 1] == old(queue)[..polled] + [old(queue)[polled]];
          polled := polled + 1;
        }
        ends := ends + [e];
        i := i + 1;
      }
    }

    /** startRserve, as far as the worker's fields go. */
    method StartSession(s: Startup)
      modifies this
      ensures (connected, pid) == Connect(false, 0, s)
      ensures queue == old(queue) && permits == old(permits) && exit == old(exit) && armed == old(armed)
      ensures hung == old(hung) && submitted == old(submitted) && started == old(started)
    {
      pid := -1;
      match s
      case Started(p) =>
        pid := p;
        connected := true;
      case FailedEarly =>
        connected := false;
      case FailedAfterPid(p) =>
        pid := p;
        connected := false;
    }
  }

  /** The job on a live session: the inner `try`, then finalisation unless the job
      escaped or hung. */
  method RunJob(sink: OutputSink, w: JobWorld) returns (end: JobEnd, disarmed: bool)
    modifies sink
    ensures var (e, ws, d) := SessionTrace(w, old(sink.status));
            end == e && disarmed == d && sink.status == Replay(old(sink.status), ws)
  {
    ghost var st := sink.status;
    var finished, stop := EvaluateJob(sink, w);
    if stop.Some? {
      return stop.value, false;
    }
    ghost var ph := EvaluationPhase(w, st);
    end, disarmed := Finalise(sink, w, finished);
    ReplayAppend(st, ph.writes, Finalisation(w, ph.finished).1);
  }

  /** The readers' writes to the armed sink, in the order they arrive. */
  method DeliverCapture(sink: OutputSink, ws: seq<Write>)
    modifies sink
    ensures sink.status == Replay(old(sink.status), ws)
  {
    var i := 0;
    while i < |ws|
      invariant 0 <= i <= |ws|
      invariant sink.status == Replay(old(sink.status), ws[..i])
    {
      match ws[i] {
        case WriteFinished(p) => sink.Finish(p);
        case WriteError(m) => sink.Error(m);
      }
      ReplayAppend(old(sink.status), ws[..i], [ws[i]]);
      assert ws[..i + 1] == ws[..i] + [ws[i]];
      i := i + 1;
    }
    assert ws[..i] == ws;
  }

  /** The inner `try` of `run`: classification, capture, and the RserveException handler.
      `stop` is Escaped when isError throws and Hung when the capture never completes. */
  method EvaluateJob(sink: OutputSink, w: JobWorld) returns (finished: bool, stop: Option<JobEnd>)
    modifies sink
    ensures var ph := EvaluationPhase(w, old(sink.status));
            finished == ph.finished && stop == ph.stop && sink.status == Replay(old(sink.status), ph.writes)
  {
    finished := false;
    stop := None;
    var failure: Option<(int, string)> := None;
    if w.svgOn.Fails? {
      failure := Some((w.svgOn.code, w.svgOn.message));
    } else if w.reply.Fails? {
      failure := Some((w.reply.code, w.reply.message));
    } else if w.reply.value.None? {
      sink.Finish(TextResult(""));
      finished := true;
    } else {
      var result := w.reply.value.value;
      var err := IsError(result);
      if err.PrefixCheckThrows? {
        return false, Some(Escaped);
      } else if err.ErrorMessage? {
        sink.Error(err.message);
        finished := true;
      } else {
        var table := IsDataFrame(result, w.co);
        if table.Some? {
          sink.Finish(TableResult(table.value));
          finished := true;
        } else if !IsVisible(result) {
        } else if w.printValue.Fails? {
          failure := Some((w.printValue.code, w.printValue.message));
        } else if w.capture.Stalls? {
          return false, Some(Hung);
        } else {
          DeliverCapture(sink, w.capture.writes);
          finished := sink.IsFinished();
        }
      }
    }
    if failure.Some? {
      finished := true;
      sink.Error(RserveError(failure.value.0, failure.value.1));
    }
  }

  /** addSvgResults: a non-empty SVG file is rewritten and the job finished with it. An
      unreadable file is logged and ignored; a crash of the rewrite escapes; a rewrite
      that does not end blocks the worker. */
  method AddSvgResults(sink: OutputSink, a: Artifact, fuel: nat) returns (added: bool, escaped: bool, stalled: bool)
    modifies sink
    ensures a.SvgFile? && |a.contents| > 0 ==>
              var r := FixSvg(a.contents, fuel);
              added == r.Done? && escaped == r.Crashed? && stalled == r.OutOfFuel? &&
              sink.status == (if r.Done? then Finished(TextResult(r.text)) else old(sink.status))
    ensures !(a.SvgFile? && |a.contents| > 0) ==> !added && !escaped && !stalled && sink.status == old(sink.status)
  {
    added, escaped, stalled := false, false, false;
    if a.SvgFile? && |a.contents| > 0 {
      var r := FixSvgResults(a.contents, fuel);
      match r
      case Done(t) =>
        sink.Finish(TextResult(t));
        added := true;
      case Crashed =>
        escaped := true;
      case OutOfFuel =>
        stalled := true;
    }
  }

  /** Finalisation of `run` after the inner `try`: flush the graphics device, then take the
      SVG result or finish with "" if the job is not finished yet. */
  method Finalise(sink: OutputSink, w: JobWorld, finished: bool) returns (end: JobEnd, disarmed: bool)
    modifies sink
    ensures var (e, ws, d) := Finalisation(w, finished);
            end == e && disarmed == d && sink.status == Replay(old(sink.status), ws)
  {
    ghost var st := sink.status;
    var isfinished := finished;
    if w.devOff.Fails? && !isfinished {
      sink.Error(DevOffPrefix + w.devOff.message);
    }
    ghost var ws := DevOffWrites(w, finished);
    assert sink.status == Replay(st, ws);
    if !isfinished {
      var added, escaped, stalled := AddSvgResults(sink, w.artifact, w.svgFuel);
      if escaped {
        return Escaped, false;
      }
      if stalled {
        return Hung, false;
      }
      if added {
        ReplayAppend(st, ws, [WriteFinished(TextResult(FixSvg(w.artifact.contents, w.svgFuel).text))]);
      }
      isfinished := added;
    }
    if !isfinished {
      sink.Finish(TextResult(""));
      ReplayAppend(st, ws, [WriteFinished(TextResult(""))]);
    }
    return Finalised, true;
  }
}
