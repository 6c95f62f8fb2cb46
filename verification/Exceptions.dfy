/** The hand-off of exceptions from the server thread to whoever resumes the debuggee (`servers.c`,
    `dbgops.c`), as a state machine over the steps of both sides. Requests are numbered. */
module Exceptions {
  type Request = nat

  /** What the server thread does next. */
  datatype Phase =
    | Waiting                                 // for the first exception of a batch
    | First(request: Request)                 // holds it, about to take the lock
    | Gathering                               // for more
    | More(request: Request)                  // holds one more, about to take the lock
    | Handling                                // the batch, one by one
    | Resuming                                // every exception of the batch asked for it

  /** `received` and `replied` are histories. `queue` and `needReply` are shared under the lock; the
      rest belongs to the server: its own queue, the batch it came from and the verdicts so far. */
  datatype State = State(
    received: seq<Request>, replied: seq<Request>, queue: seq<Request>, needReply: bool,
    phase: Phase, own: seq<Request>, batch: seq<Request>, verdicts: seq<bool>, willResume: bool)

  const INITIAL: State := State([], [], [], false, Waiting, [], [], [], true)

  datatype Event =
    | Receive(request: Request)               // mach_msg returns a message
    | TimeOut                                 // mach_msg returns none
    | Locked                                  // the server's locked region
    | Handle(resume: bool)                    // handle_exception on the next of the batch
    | AutoReply                               // the server's own ops_resume
    | Reply                                   // a command's ops_resume

  /** reply_to_all_exceptions. */
  function ReplyAll(s: State): State {
    if s.needReply then s.(replied := s.replied + s.queue, queue := [], needReply := false) else s
  }

  function Held(s: State): seq<Request> {
    if s.phase.First? || s.phase.More? then [s.phase.request] else []
  }

  /** The server's locked enqueue; only a batch's first exception sets the flag. */
  function Enqueued(s: State): State {
    s.(queue := s.queue + Held(s), needReply := s.needReply || s.phase.First?, phase := Gathering)
  }

  /** After the last of a batch. */
  function BatchDone(s: State): State {
    if s.own != [] then s else s.(phase := if s.willResume then Resuming else Waiting)
  }

  function Judged(s: State, resume: bool): State
    requires s.own != []
  {
    BatchDone(s.(own := s.own[1..], verdicts := s.verdicts + [resume], willResume := s.willResume && resume))
  }

  predicate Possible(s: State, e: Event) {
    match e
    case Receive(_) => s.phase.Waiting? || s.phase.Gathering?
    case TimeOut => s.phase.Waiting? || s.phase.Gathering?
    case Locked => s.phase.First? || s.phase.More?
    case Handle(_) => s.phase.Handling? && s.own != []
    case AutoReply => s.phase.Resuming?
    case Reply => true
  }

  function Next(s: State, e: Event): State
    requires Possible(s, e)
  {
    match e
    case Receive(r) =>
      var first := s.phase.Waiting?;
      s.(received := s.received + [r], own := (if first then [] else s.own) + [r], batch := (if first then [] else s.batch) + [r],
         phase := if first then First(r) else More(r))
    case TimeOut => if s.phase.Waiting? then s else s.(phase := Handling, willResume := true, verdicts := [])
    case Locked => Enqueued(s)
    case Handle(resume) => Judged(s, resume)
    case AutoReply => ReplyAll(s).(phase := Waiting)
    case Reply => ReplyAll(s)
  }

  predicate IsRun(s: State, events: seq<Event>)
    decreases |events|
  {
    events == [] || (Possible(s, events[0]) && IsRun(Next(s, events[0]), events[1..]))
  }

  function After(s: State, events: seq<Event>): State
    requires IsRun(s, events)
    decreases |events|
  {
    if events == [] then s else After(Next(s, events[0]), events[1..])
  }

  // ----- what every interleaving keeps

  predicate AllTrue(verdicts: seq<bool>) {
    forall i :: 0 <= i < |verdicts| ==> verdicts[i]
  }

  /** Nothing is lost, repeated or reordered; the server has judged a prefix of its batch. */
  predicate Inv(s: State) {
    && s.received == s.replied + s.queue + Held(s)
    && (s.phase.Waiting? || s.phase.Handling? || s.phase.Resuming? || (s.own == s.batch && s.own != []))
    && (s.phase.Handling? ==> s.own != [] && |s.verdicts| + |s.own| == |s.batch| && s.own == s.batch[|s.verdicts|..] && s.willResume == AllTrue(s.verdicts))
    && (s.phase.Resuming? ==> |s.verdicts| == |s.batch| && AllTrue(s.verdicts))
  }

  lemma NextKeeps(s: State, e: Event)
    requires Inv(s) && Possible(s, e)
    ensures Inv(Next(s, e))
  {
    match e
    case Receive(_) =>
    case TimeOut =>
    case Locked =>
    case Handle(resume) =>
      assert s.batch[|s.verdicts|..][1..] == s.batch[|s.verdicts| + 1..];
      AllTrueSnoc(s.verdicts, resume);
    case AutoReply => ReplyKeeps(s);
    case Reply => ReplyKeeps(s);
  }

  lemma AllTrueSnoc(verdicts: seq<bool>, v: bool)
    ensures AllTrue(verdicts + [v]) <==> AllTrue(verdicts) && v
  {
    var all := verdicts + [v];
    if AllTrue(all) {
      assert all[|verdicts|];
      forall i | 0 <= i < |verdicts| ensures verdicts[i] { assert all[i]; }
    }
  }

  lemma ReplyKeeps(s: State)
    requires s.received == s.replied + s.queue + Held(s)
    ensures var t := ReplyAll(s); s.received == t.replied + t.queue + Held(s)
  {
  }

  /** In any interleaving of the server with replies from commands, at every point: what was received
      is what has been replied to, followed by what is queued, followed by what the server holds. */
  lemma {:induction false} EveryRunKeeps(s: State, events: seq<Event>)
    requires Inv(s) && IsRun(s, events)
    ensures Inv(After(s, events))
    decreases |events|
  {
    hide Inv, Next;
    if events != [] {
      NextKeeps(s, events[0]);
      EveryRunKeeps(Next(s, events[0]), events[1..]);
    }
  }

  /** Exactly once and in order: the k-th reply goes to the k-th exception received. */
  lemma RepliesInOrder(events: seq<Event>)
    requires IsRun(INITIAL, events)
    ensures var s := After(INITIAL, events);
      |s.replied| <= |s.received| && forall k :: 0 <= k < |s.replied| ==> s.replied[k] == s.received[k]
  {
    EveryRunKeeps(INITIAL, events);
  }

  /** A reply empties the queue exactly if the flag is set or there is nothing to empty. */
  lemma ReplyClearsIff(s: State)
    ensures ReplyAll(s).queue == [] <==> s.needReply || s.queue == []
  {
  }

  // ----- when every resume leaves nothing pending

  /** Whatever is queued will be answered. */
  predicate Flagged(s: State) {
    (s.queue != [] || s.phase.More? || s.phase.Gathering?) ==> s.needReply
  }

  /** No command replies while the server is gathering a batch. */
  predicate NoReplyWhileGathering(s: State, events: seq<Event>)
    requires IsRun(s, events)
    decreases |events|
  {
    events == [] || (!(events[0].Reply? && (s.phase.Gathering? || s.phase.More?)) && NoReplyWhileGathering(Next(s, events[0]), events[1..]))
  }

  /** With a gathered batch as one step, the flag covers the queue at every point, so that every
      resume leaves nothing pending. */
  lemma {:induction false} BatchesAreAnswered(s: State, events: seq<Event>)
    requires Flagged(s) && IsRun(s, events) && NoReplyWhileGathering(s, events)
    ensures Flagged(After(s, events)) && ReplyAll(After(s, events)).queue == []
    decreases |events|
  {
    if events != [] { BatchesAreAnswered(Next(s, events[0]), events[1..]); }
  }

  /** The server is between the first and the last exception of a batch. */
  predicate Collecting(s: State) {
    s.phase.Gathering? || s.phase.More?
  }

  /** The batch that is being gathered gets another exception. */
  predicate Continues(s: State, events: seq<Event>)
    requires IsRun(s, events)
    decreases |events|
  {
    events != [] && !events[0].TimeOut? && (events[0].Locked? || Continues(Next(s, events[0]), events[1..]))
  }

  /** No batch gets another exception after a command's reply to its first ones. */
  predicate NoneBroken(s: State, events: seq<Event>)
    requires IsRun(s, events)
    decreases |events|
  {
    events == [] || (!(events[0].Reply? && Collecting(s) && Continues(Next(s, events[0]), events[1..])) && NoneBroken(Next(s, events[0]), events[1..]))
  }

  /** At every point of the run a reply would leave nothing pending. */
  predicate NeverPending(s: State, events: seq<Event>)
    requires IsRun(s, events)
    decreases |events|
  {
    ReplyAll(s).queue == [] && (events == [] || NeverPending(Next(s, events[0]), events[1..]))
  }

  /** A batch that has been replied to while it is gathered must not go on. */
  lemma {:induction false} PendingIff(s: State, events: seq<Event>)
    requires ReplyAll(s).queue == [] && IsRun(s, events)
    ensures NeverPending(s, events) <==> NoneBroken(s, events) && !(Collecting(s) && !s.needReply && Continues(s, events))
    decreases |events|
  {
    if events != [] {
      var t := Next(s, events[0]);
      if ReplyAll(t).queue == [] { PendingIff(t, events[1..]); }
      else { assert events[0].Locked? && s.phase.More? && !s.needReply; }
    }
  }

  /** The exact condition: a reply leaves something pending at some point of a run exactly if a command
      replies while a batch is gathered and the batch then gets another exception. */
  lemma NeverPendingIff(s: State, events: seq<Event>)
    requires Flagged(s) && IsRun(s, events)
    ensures NeverPending(s, events) <==> NoneBroken(s, events)
  {
    hide IsRun, Continues, NeverPending, NoneBroken, Next;
    PendingIff(s, events);
  }

  /** The flag is set by a batch's first exception only: a reply between it and the second leaves the
      second unanswered by any number of resumes, until another batch begins. */
  lemma RacingReplyStrands(first: Request, second: Request)
    ensures var events := [Receive(first), Locked, Reply, Receive(second), Locked, TimeOut, Reply];
      && IsRun(INITIAL, events)
      && After(INITIAL, events).queue == [second] && !After(INITIAL, events).needReply
  {
    var s1 := Next(INITIAL, Receive(first));
    var s2 := Next(s1, Locked);
    var s3 := Next(s2, Reply);
    var s4 := Next(s3, Receive(second));
    var s5 := Next(s4, Locked);
    var s6 := Next(s5, TimeOut);
    var s7 := Next(s6, Reply);
    RunCons(s6, Reply, []);
    RunCons(s5, TimeOut, [Reply]);
    RunCons(s4, Locked, [TimeOut, Reply]);
    RunCons(s3, Receive(second), [Locked, TimeOut, Reply]);
    RunCons(s2, Reply, [Receive(second), Locked, TimeOut, Reply]);
    RunCons(s1, Locked, [Reply, Receive(second), Locked, TimeOut, Reply]);
    RunCons(INITIAL, Receive(first), [Locked, Reply, Receive(second), Locked, TimeOut, Reply]);
    assert s7.queue == [second];
  }

  lemma RunCons(s: State, e: Event, events: seq<Event>)
    requires Possible(s, e) && IsRun(Next(s, e), events)
    ensures IsRun(s, [e] + events) && After(s, [e] + events) == After(Next(s, e), events)
  {
    assert ([e] + events)[1..] == events;
  }

  // ----- when the server reads freed messages

  /** Replying frees a message, and the server's own queue holds the same ones. Replied to are the
      first received, in the server's own queue are the last: they do not meet. */
  predicate NoneFreed(s: State) {
    |s.replied| + |s.own| <= |s.received|
  }

  /** The server has messages to judge that it has shared. */
  predicate Sharing(s: State) {
    s.phase.Gathering? || s.phase.More? || s.phase.Handling?
  }

  /** What holds as long as none was freed: a batch's flag is still set. */
  predicate Unspoiled(s: State) {
    && Inv(s) && NoneFreed(s) && (Sharing(s) ==> s.needReply)
    && (s.phase.Waiting? || s.phase.Resuming? ==> s.own == [])
    && (s.phase.First? ==> |s.own| == 1) && (s.phase.More? ==> |s.own| >= 2)
    && |s.own| <= |s.received| && s.own == s.received[|s.received| - |s.own|..]
  }

  /** At every point of the run. */
  predicate NeverFreed(s: State, events: seq<Event>)
    requires IsRun(s, events)
    decreases |events|
  {
    NoneFreed(s) && (events == [] || NeverFreed(Next(s, events[0]), events[1..]))
  }

  /** No command replies from the time a batch's first exception is shared until its last is judged. */
  predicate NoReplyWhileSharing(s: State, events: seq<Event>)
    requires IsRun(s, events)
    decreases |events|
  {
    events == [] || (!(events[0].Reply? && Sharing(s)) && NoReplyWhileSharing(Next(s, events[0]), events[1..]))
  }

  lemma InvHolds(s: State)
    requires Inv(s)
    ensures s.received == s.replied + s.queue + Held(s) && (Sharing(s) ==> s.own != [])
  {
  }

  /** Only while a batch is shared does a reply reach what the server holds. */
  lemma ReplySpoils(s: State)
    requires Unspoiled(s)
    ensures var t := ReplyAll(s);
      && |t.replied| + |t.queue| == |s.replied| + |s.queue|
      && (if Sharing(s) then |t.replied| + |s.own| > |s.received| else |t.replied| + |s.own| <= |s.received|)
  {
    hide AllTrue;
    assert |s.received| == |s.replied| + |s.queue| + |Held(s)|;
    assert Sharing(s) ==> |s.own| > |Held(s)|;
    assert !Sharing(s) ==> |s.own| <= |Held(s)|;
  }

  lemma QuietNext(s: State, e: Event)
    requires Unspoiled(s) && Possible(s, e) && !e.Reply? && !e.AutoReply? && Inv(Next(s, e))
    ensures Unspoiled(Next(s, e))
  {
    hide Inv;
    InvHolds(s);
    match e
    case Receive(_) =>
    case TimeOut =>
    case Locked =>
    case Handle(_) =>
  }

  lemma UnspoiledNext(s: State, e: Event)
    requires Unspoiled(s) && Possible(s, e)
    ensures if e.Reply? && Sharing(s) then !NoneFreed(Next(s, e)) else Unspoiled(Next(s, e))
  {
    NextKeeps(s, e);
    hide AllTrue, Inv;
    match e
    case Reply => ReplySpoils(s);
    case AutoReply => ReplySpoils(s);
    case _ => QuietNext(s, e);
  }

  /** No message of the server's own queue is freed under it exactly if no command replies while it is
      sharing a batch. */
  lemma {:induction false} NeverFreedIff(s: State, events: seq<Event>)
    requires Unspoiled(s) && IsRun(s, events)
    ensures NeverFreed(s, events) <==> NoReplyWhileSharing(s, events)
    decreases |events|
  {
    hide Unspoiled, Next, NoneFreed;
    UnspoiledNone(s);
    if events != [] {
      UnspoiledNext(s, events[0]);
      if !(events[0].Reply? && Sharing(s)) { NeverFreedIff(Next(s, events[0]), events[1..]); }
    }
  }

  lemma UnspoiledNone(s: State)
    requires Unspoiled(s)
    ensures NoneFreed(s)
  {
  }

  /** A command's reply before the batch is judged: the message to be judged next is one that has been
      replied to. */
  lemma RacingReplyFrees(request: Request, resume: bool)
    ensures var events := [Receive(request), Locked, TimeOut, Reply];
      && IsRun(INITIAL, events)
      && var s := After(INITIAL, events);
         s.own == [request] && s.replied == [request] && !NoneFreed(s) && Possible(s, Handle(resume))
  {
    var s1 := Next(INITIAL, Receive(request));
    var s2 := Next(s1, Locked);
    var s3 := Next(s2, TimeOut);
    var s4 := Next(s3, Reply);
    RunCons(s3, Reply, []);
    RunCons(s2, TimeOut, [Reply]);
    RunCons(s1, Locked, [TimeOut, Reply]);
    RunCons(INITIAL, Receive(request), [Locked, TimeOut, Reply]);
  }

  // ----- resuming without a command

  /** The verdict on the last exception of a batch makes the server resume by itself exactly if every
      exception of the batch asked for it. */
  lemma AutoResumeIff(s: State, resume: bool)
    requires Inv(s) && Possible(s, Handle(resume)) && |s.own| == 1
    ensures var t := Next(s, Handle(resume));
      && |t.verdicts| == |s.batch|
      && (Possible(t, AutoReply) <==> AllTrue(t.verdicts))
  {
    AllTrueSnoc(s.verdicts, resume);
  }

  /** When it does, everything received has been replied to. */
  lemma AutoResumeAnswersAll(events: seq<Event>)
    requires IsRun(INITIAL, events) && NoReplyWhileGathering(INITIAL, events) && Possible(After(INITIAL, events), AutoReply)
    ensures var s := Next(After(INITIAL, events), AutoReply); s.replied == s.received
  {
    EveryRunKeeps(INITIAL, events);
    BatchesAreAnswered(INITIAL, events);
  }
}
