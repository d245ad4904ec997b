/** The job's SimpleEvaluationObject as the evaluator uses it: `finished(value)`,
    `error(message)` and `getStatus()`. Each write replaces the previous state, so the
    status after a sequence of writes is the status of the last one. */
module Sink {
  import opened RReply

  /** What a job can finish with: text (captured output, SVG markup, or "") or a table. */
  datatype Payload = TextResult(text: string) | TableResult(table: Table)

  datatype Status = Pending | Finished(result: Payload) | Errored(message: string)

  /** One call on the sink. */
  datatype Write = WriteFinished(result: Payload) | WriteError(message: string)

  function StatusAfter(w: Write): (st: Status)
    ensures st != Pending
  {
    match w
    case WriteFinished(p) => Finished(p)
    case WriteError(m) => Errored(m)
  }

  /** The status after a sequence of writes, starting from `st`. */
  function Replay(st: Status, ws: seq<Write>): Status
    decreases |ws|
  {
    if ws == [] then st else Replay(StatusAfter(ws[0]), ws[1..])
  }

  /** The last write decides the status; with no write the status is unchanged. */
  lemma {:induction false} ReplayLast(st: Status, ws: seq<Write>)
    ensures ws == [] ==> Replay(st, ws) == st
    ensures ws != [] ==> Replay(st, ws) == StatusAfter(ws[|ws| - 1])
    decreases |ws|
  {
    if ws != [] {
      ReplayLast(StatusAfter(ws[0]), ws[1..]);
      if |ws| > 1 {
        assert ws[1..][|ws[1..]| - 1] == ws[|ws| - 1];
      }
    }
  }

  /** Replaying two batches of writes is replaying them one after the other. */
  lemma {:induction false} ReplayAppend(st: Status, ws: seq<Write>, more: seq<Write>)
    ensures Replay(st, ws + more) == Replay(Replay(st, ws), more)
    decreases |ws|
  {
    if ws != [] {
      assert (ws + more)[0] == ws[0] && (ws + more)[1..] == ws[1..] + more;
      ReplayAppend(StatusAfter(ws[0]), ws[1..], more);
    } else {
      assert ws + more == more;
    }
  }

  /** A sink that has been written never returns to Pending. */
  lemma NoRegression(st: Status, ws: seq<Write>)
    requires st != Pending || ws != []
    ensures Replay(st, ws) != Pending
  {
    ReplayLast(st, ws);
  }

  class OutputSink {
    var status: Status

    constructor ()
      ensures status == Pending
    {
      status := Pending;
    }

    /** SimpleEvaluationObject.finished(value). */
    method Finish(p: Payload)
      modifies this
      ensures status == Replay(old(status), [WriteFinished(p)])
    {
      status := Finished(p);
    }

    /** SimpleEvaluationObject.error(message). */
    method Error(m: string)
      modifies this
      ensures status == Replay(old(status), [WriteError(m)])
    {
      status := Errored(m);
    }

    /** `getStatus() == FINISHED`. */
    predicate IsFinished()
      reads this
    {
      status.Finished?
    }
  }
}
