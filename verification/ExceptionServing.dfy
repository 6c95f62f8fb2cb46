/** The server's and the replier's code over the two queues, region by region: each method is what
    one side does between two points where the other may run. Both queues hold the same messages, and
    a reply frees them. */
module ExceptionServing {
  import opened Exceptions
  import opened QueueObjects

  class Message {
    const id: Request
    var freed: bool

    constructor (id: Request)
      ensures this.id == id && !freed
    {
      this.id := id;
      freed := false;
    }
  }

  ghost predicate Distinct(messages: seq<Message>) {
    forall i, j :: 0 <= i < j < |messages| ==> messages[i] != messages[j]
  }

  /** The messages received are the requests `ids`, and the first `n` have been freed. */
  ghost predicate Carries(messages: seq<Message>, ids: seq<Request>, n: nat)
    reads messages
  {
    |messages| == |ids| && forall i :: 0 <= i < |messages| ==> messages[i].id == ids[i] && messages[i].freed == (i < n)
  }

  /** What the two queues of `model` are in terms of everything received. */
  ghost predicate Placed(model: State) {
    && |model.replied| + |model.queue| <= |model.received| && |model.own| <= |model.received|
    && model.received == model.replied + model.queue + Held(model)
    && model.own == model.received[|model.received| - |model.own|..]
  }

  ghost function Queued(messages: seq<Message>, model: State): seq<Message>
    requires Placed(model) && |messages| == |model.received|
  {
    messages[|model.replied|..|model.replied| + |model.queue|]
  }

  ghost function ToJudge(messages: seq<Message>, model: State): seq<Message>
    requires Placed(model) && |messages| == |model.received|
  {
    messages[|messages| - |model.own|..]
  }

  lemma ReceivedPlaced(messages: seq<Message>, model: State, m: Message)
    requires Placed(model) && |messages| == |model.received|
    requires (model.phase.Waiting? || model.phase.Gathering?) && (model.phase.Waiting? ==> model.own == [])
    ensures var t := Next(model, Event.Receive(m.id));
      && Placed(t) && t.received == model.received + [m.id] && t.replied == model.replied && t.needReply == model.needReply && t.willResume == model.willResume
      && Queued(messages + [m], t) == Queued(messages, model) && ToJudge(messages + [m], t) == ToJudge(messages, model) + [m]
  {
  }

  lemma LockedPlaced(messages: seq<Message>, model: State, m: Message)
    requires Placed(model) && |messages| == |model.received| && Held(model) == [m.id] && m == messages[|messages| - 1]
    ensures var t := Next(model, Locked);
      && Placed(t) && t.received == model.received && t.replied == model.replied && t.willResume == model.willResume
      && t.needReply == (model.needReply || model.phase.First?)
      && Queued(messages, t) == Queued(messages, model) + [m] && ToJudge(messages, t) == ToJudge(messages, model)
  {
    assert |model.replied| + |model.queue| + 1 == |messages|;
  }

  lemma RepliedPlaced(messages: seq<Message>, model: State)
    requires Placed(model) && |messages| == |model.received|
    ensures var t := ReplyAll(model);
      && Placed(t) && t.received == model.received && !t.needReply && t.willResume == model.willResume && ToJudge(messages, t) == ToJudge(messages, model)
      && (if model.needReply then Queued(messages, t) == [] && |t.replied| == |model.replied| + |model.queue| else t == model)
  {
  }

  class Server {
    const shared: Queue<Message?>
    const own: Queue<Message?>
    var needReply: bool
    var willResume: bool
    ghost var model: State
    /** Every message received so far, in order. */
    ghost var messages: seq<Message>

    constructor ()
      ensures Valid() && model == INITIAL && fresh(shared) && fresh(own)
    {
      shared := new Queue<Message?>(null);
      own := new Queue<Message?>(null);
      needReply, willResume := false, true;
      model, messages := INITIAL, [];
      new;
      hide Queue.Valid;
    }

    ghost predicate Valid()
      reads this, shared, shared.data, own, own.data, messages
    {
      && shared != own && shared.Valid() && own.Valid() && shared.none == null && own.none == null
      && (shared.data != null && own.data != null ==> shared.data != own.data)
      && Placed(model) && Distinct(messages) && Carries(messages, model.received, |model.replied|)
      && shared.Contents() == Queued(messages, model) && own.Contents() == ToJudge(messages, model)
      && needReply == model.needReply && willResume == model.willResume
    }

    /** A message arrives and joins the server's own queue. */
    method Receive(m: Message)
      requires Valid() && (model.phase.Waiting? || model.phase.Gathering?) && (model.phase.Waiting? ==> model.own == [])
      requires m !in messages && !m.freed
      modifies this`model, this`messages, own
      ensures Valid() && model == Next(old(model), Event.Receive(m.id)) && messages == old(messages) + [m]
      ensures own.data == old(own.data) || fresh(own.data)
    {
      hide Carries, Distinct, Placed, Queued, ToJudge, Next;
      own.Enqueue(m);
      CarriesLength(messages, model.received, |model.replied|);
      ReceivedCarries(messages, model, m);
      ReceivedPlaced(messages, model, m);
      model := Next(model, Event.Receive(m.id));
      messages := messages + [m];
    }

    /** The locked region: the flag is set for the first message of a batch only. */
    method EnqueueLocked(m: Message, first: bool)
      requires Valid() && Held(model) == [m.id] && first == model.phase.First? && m == messages[|messages| - 1]
      modifies this`model, this`needReply, shared
      ensures Valid() && model == Next(old(model), Locked)
      ensures shared.data == old(shared.data) || fresh(shared.data)
    {
      hide Carries, Distinct, Placed, Queued, ToJudge, Next;
      CarriesLength(messages, model.received, |model.replied|);
      LockedPlaced(messages, model, m);
      if first { needReply := true; }
      shared.Enqueue(m);
      model := Next(model, Locked);
    }

    /** No more messages. */
    method StopGathering()
      requires Valid() && model.phase.Gathering?
      modifies this`model, this`willResume
      ensures Valid() && model == Next(old(model), TimeOut)
    {
      hide Carries, Distinct;
      willResume := true;
      model := Next(model, TimeOut);
    }

    /** The handling of a batch of which nothing was freed; `asks` is what handle_exception makes of
        each message. */
    method HandleBatch(asks: seq<bool>)
      requires Valid() && model.phase.Handling? && asks != [] && |asks| == |model.own| && NoneFreed(model)
      modifies this`model, this`willResume, own, own.data
      ensures Valid() && own.data == old(own.data)
      ensures IsRun(old(model), Handles(asks)) && model == After(old(model), Handles(asks))
      ensures willResume == (old(willResume) && AllTrue(asks))
    {
      NotFreed(messages, model);
      HandledPlaced(messages, model, asks);
      hide IsRun, After, Handles, Carries, Distinct, Placed, Queued, ToJudge, NoneFreed, Live;
      willResume := JudgeAll(own, asks, willResume, ToJudge(messages, model));
      model := After(model, Handles(asks));
    }

    /** reply_to_all_exceptions, under the lock: every queued message is answered in order and freed. */
    method ReplyToAll() returns (replies: seq<Request>)
      requires Valid()
      modifies this`model, this`needReply, shared, shared.data, messages
      ensures Valid() && shared.data == old(shared.data) && model == ReplyAll(old(model)) && messages == old(messages)
      ensures replies == if old(needReply) then old(model.queue) else []
    {
      hide Carries, Distinct, Placed, Queued, ToJudge, ReplyAll;
      CarriesLength(messages, model.received, |model.replied|);
      RepliedPlaced(messages, model);
      replies := [];
      if needReply {
        replies := AnswerQueued(shared, messages, model);
        needReply := false;
      }
      model := ReplyAll(model);
    }
  }

  lemma CarriesLength(messages: seq<Message>, ids: seq<Request>, n: nat)
    requires Carries(messages, ids, n)
    ensures |messages| == |ids|
  {
  }

  lemma ReceivedCarries(messages: seq<Message>, model: State, m: Message)
    requires Placed(model) && Carries(messages, model.received, |model.replied|) && Distinct(messages) && m !in messages && !m.freed
    ensures Carries(messages + [m], model.received + [m.id], |model.replied|) && Distinct(messages + [m])
  {
  }

  /** Nothing freed in the model is nothing freed in the server's own queue. */
  lemma NotFreed(messages: seq<Message>, model: State)
    requires Placed(model) && Carries(messages, model.received, |model.replied|) && NoneFreed(model)
    ensures Live(ToJudge(messages, model)) && |ToJudge(messages, model)| == |model.own|
  {
  }

  ghost predicate Live(batch: seq<Message>)
    reads batch
  {
    forall i :: 0 <= i < |batch| ==> !batch[i].freed
  }

  lemma LiveAt(batch: seq<Message>, i: nat)
    requires Live(batch) && i < |batch|
    ensures !batch[i].freed
  {
  }

  lemma HandledPlaced(messages: seq<Message>, model: State, asks: seq<bool>)
    requires Placed(model) && |messages| == |model.received| && model.phase.Handling? && asks != [] && |asks| == |model.own|
    ensures IsRun(model, Handles(asks))
    ensures var t := After(model, Handles(asks));
      && Placed(t) && t.received == model.received && t.replied == model.replied && t.needReply == model.needReply
      && t.willResume == (model.willResume && AllTrue(asks))
      && Queued(messages, t) == Queued(messages, model) && ToJudge(messages, t) == []
  {
    hide IsRun, After, Handles, AllTrue;
    HandlesRun(model, asks);
  }

  lemma QueuedFacts(messages: seq<Message>, model: State)
    requires Placed(model) && Carries(messages, model.received, |model.replied|) && Distinct(messages)
    ensures var batch := Queued(messages, model);
      Distinct(batch) && |batch| == |model.queue| && forall i :: 0 <= i < |batch| ==> !batch[i].freed && batch[i].id == model.queue[i]
  {
    var batch := Queued(messages, model);
    forall i | 0 <= i < |batch| ensures !batch[i].freed && batch[i].id == model.queue[i] {
      assert batch[i] == messages[|model.replied| + i];
    }
  }

  /** `m` is the `i`-th message of `batch`, and the queue holds those behind it. */
  ghost predicate Taken(q: Queue<Message?>, batch: seq<Message>, i: nat, m: Message?)
    requires q.Valid()
    reads q, q.data
  {
    if i < |batch| then m == batch[i] && q.Contents() == batch[i + 1..] else m == null && q.Contents() == []
  }

  method DequeueMessage(q: Queue<Message?>, ghost batch: seq<Message>, ghost i: nat) returns (m: Message?)
    requires q.Valid() && q.none == null && i <= |batch| && q.Contents() == batch[i..]
    modifies q`capacity, q.data
    ensures q.Valid() && q.data == old(q.data) && Taken(q, batch, i, m)
  {
    m := q.Dequeue();
  }

  method DequeueNext(q: Queue<Message?>, ghost batch: seq<Message>, ghost i: nat, ghost last: Message) returns (m: Message?)
    requires q.Valid() && q.none == null && Taken(q, batch, i, last)
    modifies q`capacity, q.data
    ensures q.Valid() && q.data == old(q.data) && i < |batch| && Taken(q, batch, i + 1, m)
  {
    m := DequeueMessage(q, batch, i + 1);
  }

  lemma TakenAt(q: Queue<Message?>, batch: seq<Message>, i: nat, m: Message?)
    requires q.Valid() && i <= |batch| && Taken(q, batch, i, m)
    ensures if m == null then i == |batch| && q.Contents() == [] else i < |batch| && m == batch[i]
  {
  }

  /** The messages replied to, and no others, are freed. */
  ghost predicate Answered(batch: seq<Message>, replies: seq<Request>)
    requires |replies| <= |batch|
    reads batch
  {
    && (forall i :: 0 <= i < |replies| ==> replies[i] == batch[i].id && batch[i].freed)
    && (forall i :: |replies| <= i < |batch| ==> !batch[i].freed)
  }

  lemma NoneAnswered(batch: seq<Message>)
    requires forall m :: m in batch ==> !m.freed
    ensures Answered(batch, [])
  {
  }

  lemma AllAnswered(batch: seq<Message>, replies: seq<Request>)
    requires |replies| == |batch| && Answered(batch, replies)
    ensures (forall m :: m in batch ==> m.freed) && forall i :: 0 <= i < |batch| ==> replies[i] == batch[i].id
  {
  }

  /** The loop of reply_to_all_exceptions. */
  method AnswerAll(q: Queue<Message?>, ghost batch: seq<Message>) returns (replies: seq<Request>)
    requires q.Valid() && q.none == null && q.Contents() == batch
    requires Distinct(batch) && forall m :: m in batch ==> !m.freed
    modifies q`capacity, q.data, batch
    ensures q.Valid() && q.data == old(q.data) && q.Contents() == [] && (forall m :: m in batch ==> m.freed)
    ensures |replies| == |batch| && forall i :: 0 <= i < |batch| ==> replies[i] == batch[i].id
  {
    replies := [];
    assert batch[0..] == batch;
    hide Queue.Contents, Queue.Valid, Taken, Answered, Distinct;
    NoneAnswered(batch);
    var m := DequeueMessage(q, batch, 0);
    while m != null
      invariant q.Valid() && q.data == old(q.data) && |replies| <= |batch| && Taken(q, batch, |replies|, m) && Answered(batch, replies)
      decreases |batch| - |replies|
    {
      TakenAt(q, batch, |replies|, m);
      replies := AnswerOne(m, batch, replies);
      m := DequeueNext(q, batch, |replies| - 1, m);
    }
    TakenAt(q, batch, |replies|, m);
    AllAnswered(batch, replies);
  }

  /** reply_to_exception, and the free. */
  method AnswerOne(m: Message, ghost batch: seq<Message>, replies: seq<Request>) returns (more: seq<Request>)
    requires Distinct(batch) && |replies| < |batch| && m == batch[|replies|] && Answered(batch, replies)
    modifies m
    ensures |more| == |replies| + 1 && Answered(batch, more)
  {
    more := replies + [m.id];
    m.freed := true;
  }

  /** Answering what is queued frees that and nothing else. */
  method AnswerQueued(q: Queue<Message?>, ghost messages: seq<Message>, ghost model: State) returns (replies: seq<Request>)
    requires q.Valid() && q.none == null && Placed(model) && Distinct(messages) && Carries(messages, model.received, |model.replied|)
    requires q.Contents() == Queued(messages, model)
    modifies q`capacity, q.data, messages
    ensures q.Valid() && q.data == old(q.data) && q.Contents() == [] && replies == model.queue
    ensures Carries(messages, model.received, |model.replied| + |model.queue|)
  {
    ghost var batch := Queued(messages, model);
    QueuedFacts(messages, model);
    PartApart(messages, model);
    CarriedOutside(messages, model);
    hide Distinct, Queue.Contents, Queue.Valid, Carries, Queued, Placed;
    replies := AnswerAll(q, batch);
    AnsweredCarries(messages, model);
    assert replies == model.queue;
  }

  predicate Inside(model: State, i: nat) {
    |model.replied| <= i < |model.replied| + |model.queue|
  }

  lemma PartApart(messages: seq<Message>, model: State)
    requires Placed(model) && Distinct(messages) && |messages| == |model.received|
    ensures forall i :: 0 <= i < |messages| && !Inside(model, i) ==> messages[i] !in Queued(messages, model)
  {
  }

  /** The ids are right, and so are the marks outside the queue. */
  ghost predicate Outside(messages: seq<Message>, model: State)
    reads messages
  {
    && |messages| == |model.received|
    && forall i :: 0 <= i < |messages| && !Inside(model, i) ==> messages[i].id == model.received[i] && messages[i].freed == (i < |model.replied|)
  }

  lemma CarriedOutside(messages: seq<Message>, model: State)
    requires Carries(messages, model.received, |model.replied|)
    ensures Outside(messages, model) && forall i :: 0 <= i < |messages| ==> messages[i].id == model.received[i]
  {
  }

  lemma AnsweredCarries(messages: seq<Message>, model: State)
    requires Placed(model) && Outside(messages, model) && forall m :: m in Queued(messages, model) ==> m.freed
    requires forall i :: 0 <= i < |messages| ==> messages[i].id == model.received[i]
    ensures Carries(messages, model.received, |model.replied| + |model.queue|)
  {
    var n, batch := |model.replied|, Queued(messages, model);
    forall i | 0 <= i < |messages| ensures messages[i].freed == (i < n + |batch|) {
      if Inside(model, i) { assert batch[i - n] == messages[i]; }
    }
  }

  /** handle_exception reads the message; what it asks for is a parameter. */
  method HandleMessage(m: Message, ask: bool) returns (shouldResume: bool)
    requires !m.freed
    ensures shouldResume == ask
  {
    shouldResume := ask;
  }

  /** The verdict on the first `i` messages. */
  ghost predicate Judging(asks: seq<bool>, i: nat, start: bool, verdict: bool)
    requires i <= |asks|
  {
    verdict == (start && AllTrue(asks[..i]))
  }

  /** The handling loop: one refusal is enough. */
  method JudgeAll(q: Queue<Message?>, asks: seq<bool>, start: bool, ghost batch: seq<Message>) returns (willResume: bool)
    requires q.Valid() && q.none == null && q.Contents() == batch && |asks| == |batch| && Live(batch)
    modifies q`capacity, q.data
    ensures q.Valid() && q.data == old(q.data) && q.Contents() == []
    ensures willResume == (start && AllTrue(asks))
  {
    willResume := start;
    assert batch[0..] == batch;
    JudgingStarts(asks, start);
    var i := 0;
    hide Queue.Contents, Queue.Valid, AllTrue, Taken, Live, Judging;
    var m := DequeueMessage(q, batch, 0);
    while m != null
      invariant q.Valid() && q.data == old(q.data) && i <= |batch| && Taken(q, batch, i, m)
      invariant Judging(asks, i, start, willResume)
      decreases |batch| - i
    {
      TakenAt(q, batch, i, m);
      LiveAt(batch, i);
      willResume := JudgeOne(m, asks, i, start, willResume);
      m := DequeueNext(q, batch, i, m);
      i := i + 1;
    }
    TakenAt(q, batch, i, m);
    JudgingEnds(asks, start, willResume);
  }

  /** A refusal stays. */
  method JudgeOne(m: Message, asks: seq<bool>, i: nat, ghost start: bool, before: bool) returns (willResume: bool)
    requires i < |asks| && Judging(asks, i, start, before) && !m.freed
    ensures Judging(asks, i + 1, start, willResume)
  {
    hide AllTrue;
    willResume := before;
    var shouldResume := HandleMessage(m, asks[i]);
    if willResume && !shouldResume { willResume := false; }
    AllTrueSnoc(asks[..i], shouldResume);
    assert asks[..i + 1] == asks[..i] + [shouldResume];
  }

  lemma JudgingStarts(asks: seq<bool>, start: bool)
    ensures Judging(asks, 0, start, start)
  {
  }

  lemma JudgingEnds(asks: seq<bool>, start: bool, verdict: bool)
    requires Judging(asks, |asks|, start, verdict)
    ensures verdict == (start && AllTrue(asks))
  {
    assert asks[..|asks|] == asks;
  }

  /** The events of handling a batch. */
  function Handles(asks: seq<bool>): seq<Event> {
    if asks == [] then [] else [Handle(asks[0])] + Handles(asks[1..])
  }

  /** Handling a whole batch judges all of it and touches nothing shared. */
  lemma {:induction false} HandlesRun(s: State, asks: seq<bool>)
    requires s.phase.Handling? && asks != [] && |asks| == |s.own|
    ensures IsRun(s, Handles(asks))
    ensures var t := After(s, Handles(asks));
      && t.own == [] && t.queue == s.queue && t.received == s.received && t.replied == s.replied && Held(t) == Held(s)
      && t.needReply == s.needReply && t.willResume == (s.willResume && AllTrue(asks))
    decreases |asks|
  {
    var t := Next(s, Handle(asks[0]));
    AllTrueCons(asks);
    RunCons(s, Handle(asks[0]), Handles(asks[1..])) by {
      if |asks| > 1 { HandlesRun(t, asks[1..]); } else { assert Handles(asks[1..]) == []; }
    }
    if |asks| > 1 { HandlesRun(t, asks[1..]); }
  }

  lemma AllTrueCons(asks: seq<bool>)
    requires asks != []
    ensures AllTrue(asks) <==> asks[0] && AllTrue(asks[1..])
  {
    var rest := asks[1..];
    if asks[0] && AllTrue(rest) {
      forall i | 0 <= i < |asks| ensures asks[i] { if i > 0 { assert rest[i - 1]; } }
    }
    if AllTrue(asks) {
      assert asks[0];
      forall i | 0 <= i < |rest| ensures rest[i] { assert asks[i + 1]; }
    }
  }
}
