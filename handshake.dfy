/** The fork-server handshake of run_target in afl-showmap.c: the decision
    whether the run was instrumented, taken from the outcome of one 4-byte
    write on the control pipe and up to three 4-byte reads on the status
    pipe. The pipes themselves are not modelled; their results are inputs. */
module ForkServer {
  import opened Config

  /** The outcome of one read(2) of a 4-byte message: the byte count it
      returned (-1 on error, 0 at end of file) and the value it stored. */
  datatype Reply = Reply(count: int, value: s32)

  /** What the status pipe yields once it has no more data: end of file. */
  const EOF: Reply := Reply(0, 0)

  /** Verdict of the handshake: either the child ran, with its pid and
      the wait status it reported, or no instrumentation was detected. */
  datatype Outcome = Ran(childPid: s32, status: s32) | NoInstrumentation

  /** A verdict together with the number of status reads performed. */
  datatype Exchange = Exchange(outcome: Outcome, readsDone: nat)

  /** The k-th reply the status pipe delivers, end of file past the last. */
  function ReplyAt(replies: seq<Reply>, k: nat): Reply {
    if k < |replies| then replies[k] else EOF
  }

  /** The four transfers were complete and the pid was positive. */
  predicate Complete(written: int, replies: seq<Reply>) {
    && written == MSG_SIZE
    && |replies| >= 3
    && replies[0].count == MSG_SIZE
    && replies[1].count == MSG_SIZE && replies[1].value > 0
    && replies[2].count == MSG_SIZE
  }

  /** run_target after the fork: `written` is what the "go" write returned,
      `replies` what the fork server sends back in order. Each check stops
      the exchange at the first failure, like the short-circuit condition
      of the source, so a later message is never read. */
  function RunTarget(written: int, replies: seq<Reply>): (r: Exchange)
    ensures r.readsDone <= 3
  {
    if written != MSG_SIZE then Exchange(NoInstrumentation, 0)
    else
      var hello := ReplyAt(replies, 0);
      if hello.count != MSG_SIZE then Exchange(NoInstrumentation, 1)
      else
        var pid := ReplyAt(replies, 1);
        if pid.count != MSG_SIZE || pid.value <= 0 then Exchange(NoInstrumentation, 2)
        else
          var status := ReplyAt(replies, 2);
          if status.count != MSG_SIZE then Exchange(NoInstrumentation, 3)
          else Exchange(Ran(pid.value, status.value), 3)
  }

  /** The run is accepted exactly when all four transfers were complete and
      the pid was positive; the pid is then the second message and the
      status the third. */
  lemma RunTargetAccepts(written: int, replies: seq<Reply>)
    ensures RunTarget(written, replies).outcome.Ran? <==> Complete(written, replies)
    ensures Complete(written, replies) ==>
      RunTarget(written, replies).outcome == Ran(replies[1].value, replies[2].value)
  {
  }

  /** An accepted run reports a positive pid and has read all three
      messages. */
  lemma RunTargetPositivePid(written: int, replies: seq<Reply>)
    requires RunTarget(written, replies).outcome.Ran?
    ensures RunTarget(written, replies).outcome.childPid > 0
    ensures RunTarget(written, replies).readsDone == 3
  {
  }

  /** Reads stop at the first failure: every read except the last one
      performed delivered a complete message, and no read is attempted if
      the "go" write failed. */
  lemma RunTargetStopsAtFailure(written: int, replies: seq<Reply>)
    ensures RunTarget(written, replies).readsDone == 0 <==> written != MSG_SIZE
    ensures forall k :: 0 <= k < RunTarget(written, replies).readsDone - 1 ==> ReplyAt(replies, k).count == MSG_SIZE
  {
  }

  /** A fork server that sends fewer than three messages is always
      rejected. */
  lemma ShortExchangeRejected(written: int, replies: seq<Reply>)
    requires |replies| < 3
    ensures RunTarget(written, replies).outcome == NoInstrumentation
  {
  }

  /** The content of the "hi mom" message is never looked at. */
  lemma HelloValueIgnored(written: int, replies: seq<Reply>, v: s32)
    requires |replies| >= 1
    ensures RunTarget(written, replies[0 := Reply(replies[0].count, v)]) == RunTarget(written, replies)
  {
  }

  /** Whatever the fork server sends after the third message is not read. */
  lemma LaterRepliesIgnored(written: int, replies: seq<Reply>, more: seq<Reply>)
    requires |replies| >= 3
    ensures RunTarget(written, replies + more) == RunTarget(written, replies)
  {
  }
}
