/** The server as a transition system: one reader, a goroutine per request, a bounded
    channel of responses and one writer, under every schedule. */
module Engine {
  import opened Wrappers
  import opened Framing
  import opened Dispatch

  const CAPACITY: nat := 64

  datatype ReaderState = Reading | Sending(msg: Msg) | Waiting | Closing | Finished

  /** A spawned handler: still running, or blocked on queueing its answer. */
  datatype Handler = Running(msg: Msg) | Emitting(msg: Msg)

  datatype WriterState = Idle | Writing(msg: Msg) | Exited

  /** `leaving` counts handlers that have queued their answer and not yet left the wait
      group, so the group's count is `|live| + leaving`. */
  datatype State = State(
    next: nat, greeted: bool, reader: ReaderState,
    live: seq<Handler>, leaving: nat,
    channel: seq<Msg>, closed: bool,
    writer: WriterState, output: seq<Msg>)

  datatype Step =
    | Read | ReaderSend | StopReading | CloseChannel | Return
    | Finish(k: nat) | HandlerSend(k: nat) | Leave
    | Take | Encode | WriterExit

  const INIT: State := State(0, false, Reading, [], 0, [], false, Idle, [])

  /** A send needs room in the channel and nothing else: sending on a closed channel is
      not ruled out here, it is proved never to happen. */
  predicate Enabled(s: Session, st: State, step: Step)
  {
    match step
    case Read => st.reader.Reading? && st.next < |s.calls|
    case ReaderSend => st.reader.Sending? && |st.channel| < CAPACITY
    case StopReading => st.reader.Reading? && st.next >= |s.calls|
    case CloseChannel => st.reader.Waiting? && |st.live| + st.leaving == 0
    case Return => st.reader.Closing? && st.writer.Exited?
    case Finish(k) => k < |st.live| && st.live[k].Running?
    case HandlerSend(k) => k < |st.live| && st.live[k].Emitting? && |st.channel| < CAPACITY
    case Leave => st.leaving > 0
    case Take => st.writer.Idle? && st.channel != []
    case Encode => st.writer.Writing?
    case WriterExit => st.writer.Idle? && st.channel == [] && st.closed
  }

  function AfterRead(s: Session, st: State): State
    requires st.next < |s.calls|
  {
    var action := Act(s, st.greeted, st.next);
    var read := st.(next := st.next + 1, greeted := st.greeted || HelloOk(s, st.next));
    match action
    case Skip => read
    case Emit(msg) => read.(reader := Sending(msg))
    case Spawn(msg) => read.(live := st.live + [Running(msg)])
  }

  function Apply(s: Session, st: State, step: Step): State
    requires Enabled(s, st, step)
  {
    match step
    case Read => AfterRead(s, st)
    case ReaderSend => st.(channel := st.channel + [st.reader.msg], reader := Reading)
    case StopReading => st.(reader := Waiting)
    case CloseChannel => st.(reader := Closing, closed := true)
    case Return => st.(reader := Finished)
    case Finish(k) => st.(live := st.live[k := Emitting(st.live[k].msg)])
    case HandlerSend(k) =>
      st.(channel := st.channel + [st.live[k].msg], live := st.live[..k] + st.live[k + 1..], leaving := st.leaving + 1)
    case Leave => st.(leaving := st.leaving - 1)
    case Take => st.(writer := Writing(st.channel[0]), channel := st.channel[1..])
    case Encode => st.(writer := Idle, output := st.output + [st.writer.msg])
    case WriterExit => st.(writer := Exited)
  }

  /** `steps` take `st` to `st'`. */
  ghost predicate Runs(s: Session, st: State, steps: seq<Step>, st': State)
    decreases |steps|
  {
    if steps == [] then st == st'
    else Enabled(s, st, steps[0]) && Runs(s, Apply(s, st, steps[0]), steps[1..], st')
  }

  // ----- where every response is -----

  function LiveMsgs(live: seq<Handler>): (msgs: seq<Msg>)
    ensures |msgs| == |live|
    ensures forall i :: 0 <= i < |live| ==> msgs[i] == live[i].msg
  {
    seq(|live|, i requires 0 <= i < |live| => live[i].msg)
  }

  function WriterMsgs(st: State): seq<Msg> { if st.writer.Writing? then [st.writer.msg] else [] }

  function ReaderMsgs(st: State): seq<Msg> { if st.reader.Sending? then [st.reader.msg] else [] }

  /** The responses in the order they were or will be written, as far as it is settled. */
  function Queue(st: State): seq<Msg>
  {
    st.output + WriterMsgs(st) + st.channel + ReaderMsgs(st)
  }

  /** The responses to the first `n` frames, in frame order: what a server that handled
      one frame at a time would write. */
  function Answers(s: Session, n: nat): seq<Msg>
    requires n <= |s.calls|
  {
    if n == 0 then []
    else
      var a := ActionAt(s, n - 1);
      Answers(s, n - 1) + if a.Skip? then [] else [a.msg]
  }

  /** A response the reader wrote itself stands after every response already queued for
      an earlier frame, and nothing for a later frame comes before it. */
  ghost predicate InlineOrdered(msgs: seq<Msg>)
  {
    forall p, q :: 0 <= p < q < |msgs| && msgs[q].inline ==> msgs[p].frame < msgs[q].frame
  }

  ghost predicate Phases(s: Session, st: State)
  {
    && st.next <= |s.calls| && st.greeted == Greeted(s, st.next)
    && |st.channel| <= CAPACITY
    && (st.closed <==> st.reader.Closing? || st.reader.Finished?)
    && (st.closed ==> st.live == [] && st.leaving == 0)
    && (st.writer.Exited? ==> st.closed && st.channel == [])
    && (st.reader.Finished? ==> st.writer.Exited?)
    && (st.reader.Reading? || st.reader.Sending? || st.next == |s.calls|)
  }

  ghost predicate Ordered(st: State)
  {
    && InlineOrdered(Queue(st))
    && (forall i :: 0 <= i < |Queue(st)| ==> Queue(st)[i].frame < st.next)
    && (forall i :: 0 <= i < |st.live| ==> !st.live[i].msg.inline && st.live[i].msg.frame < st.next)
    && (st.reader.Sending? ==> forall i :: 0 <= i < |st.live| ==> st.live[i].msg.frame < st.reader.msg.frame)
  }

  ghost predicate Accounted(s: Session, st: State)
    requires st.next <= |s.calls|
  {
    multiset(Queue(st)) + multiset(LiveMsgs(st.live)) == multiset(Answers(s, st.next))
  }

  ghost predicate Inv(s: Session, st: State)
  {
    Phases(s, st) && Ordered(st) && Accounted(s, st)
  }

  lemma InitInv(s: Session)
    ensures Inv(s, INIT)
  {
  }

  lemma PhasesStep(s: Session, st: State, step: Step)
    requires Phases(s, st) && Enabled(s, st, step)
    ensures Phases(s, Apply(s, st, step))
  {
    if step.Read? {
      GreetedStep(s, st.next);
    }
  }

  /** Every step but a read and a handler's send leaves the queue as it is. */
  lemma QueueKept(s: Session, st: State, step: Step)
    requires Enabled(s, st, step) && !step.Read? && !step.HandlerSend?
    ensures Queue(Apply(s, st, step)) == Queue(st)
  {
  }

  /** What stands in the queue before whatever the reader is blocked on. */
  function Settled(st: State): seq<Msg>
  {
    st.output + WriterMsgs(st) + st.channel
  }

  lemma QueueRead(s: Session, st: State)
    requires Phases(s, st) && Enabled(s, st, Read)
    ensures var a := ActionAt(s, st.next);
            && Apply(s, st, Read).next == st.next + 1
            && Queue(Apply(s, st, Read)) == Queue(st) + (if a.Emit? then [a.msg] else [])
            && LiveMsgs(Apply(s, st, Read).live) == LiveMsgs(st.live) + (if a.Spawn? then [a.msg] else [])
  {
    var a := ActionAt(s, st.next);
    if a.Spawn? {
      LiveAppend(st.live, Running(a.msg));
    }
  }

  lemma QueueSend(s: Session, st: State, k: nat)
    requires Enabled(s, st, HandlerSend(k))
    ensures Queue(st) == Settled(st) + ReaderMsgs(st)
    ensures Queue(Apply(s, st, HandlerSend(k))) == Settled(st) + [st.live[k].msg] + ReaderMsgs(st)
  {
  }

  /** A response that is not inline may slip in ahead of inline ones for later frames. */
  lemma InsertOrdered(front: seq<Msg>, msg: Msg, back: seq<Msg>)
    requires InlineOrdered(front + back)
    requires msg.inline ==> forall i :: 0 <= i < |front| ==> front[i].frame < msg.frame
    requires forall i :: 0 <= i < |back| && back[i].inline ==> msg.frame < back[i].frame
    ensures InlineOrdered(front + [msg] + back)
  {
    var was, now := front + back, front + [msg] + back;
    forall p, q | 0 <= p < q < |now| && now[q].inline
      ensures now[p].frame < now[q].frame
    {
      if p != |front| && q != |front| {
        var p', q' := if p < |front| then p else p - 1, if q < |front| then q else q - 1;
        assert was[p'] == now[p] && was[q'] == now[q];
      }
    }
  }

  lemma OrderedRead(s: Session, st: State)
    requires Phases(s, st) && Ordered(st) && Enabled(s, st, Read)
    ensures Ordered(Apply(s, st, Read))
  {
    var st' := Apply(s, st, Read);
    var a := ActionAt(s, st.next);
    if a.Emit? {
      assert Queue(st) + [] == Queue(st);
      assert Queue(st') == Queue(st) + [a.msg] + [];
      InsertOrdered(Queue(st), a.msg, []);
    } else {
      assert Queue(st') == Queue(st);
    }
  }

  lemma OrderedSend(s: Session, st: State, k: nat)
    requires Phases(s, st) && Ordered(st) && Enabled(s, st, HandlerSend(k))
    ensures Ordered(Apply(s, st, HandlerSend(k)))
  {
    var st' := Apply(s, st, HandlerSend(k));
    var front, msg, back := Settled(st), st.live[k].msg, ReaderMsgs(st);
    QueueSend(s, st, k);
    InsertOrdered(front, msg, back);
    forall i | 0 <= i < |Queue(st')|
      ensures Queue(st')[i].frame < st'.next
    {
      if i != |front| {
        assert Queue(st')[i] == Queue(st)[if i < |front| then i else i - 1];
      }
    }
  }

  lemma OrderedStep(s: Session, st: State, step: Step)
    requires Phases(s, st) && Ordered(st) && Enabled(s, st, step)
    ensures Ordered(Apply(s, st, step))
  {
    match step {
      case Read => OrderedRead(s, st);
      case HandlerSend(k) => OrderedSend(s, st, k);
      case _ => QueueKept(s, st, step);
    }
  }

  lemma Removed<T>(m: seq<T>, k: nat)
    requires k < |m|
    ensures multiset(m) == multiset(m[..k] + m[k + 1..]) + multiset{m[k]}
  {
    assert m == m[..k] + ([m[k]] + m[k + 1..]);
  }

  lemma LiveAppend(live: seq<Handler>, h: Handler)
    ensures LiveMsgs(live + [h]) == LiveMsgs(live) + [h.msg]
  {
  }

  /** A message joins the answers and either the queue or the live ones. */
  lemma BagTurn(queue: seq<Msg>, live: seq<Msg>, answers: seq<Msg>, toQueue: seq<Msg>, toLive: seq<Msg>,
                queue': seq<Msg>, live': seq<Msg>, answers': seq<Msg>)
    requires multiset(queue) + multiset(live) == multiset(answers)
    requires queue' == queue + toQueue && live' == live + toLive && (toQueue == [] || toLive == [])
    requires answers' == answers + (if toQueue == [] then toLive else toQueue)
    ensures multiset(queue') + multiset(live') == multiset(answers')
  {
  }

  lemma AccountedRead(s: Session, st: State)
    requires Phases(s, st) && Accounted(s, st) && Enabled(s, st, Read)
    ensures st.next < |s.calls| && Accounted(s, Apply(s, st, Read))
  {
    QueueRead(s, st);
    var a, st' := ActionAt(s, st.next), Apply(s, st, Read);
    BagTurn(Queue(st), LiveMsgs(st.live), Answers(s, st.next),
            if a.Emit? then [a.msg] else [], if a.Spawn? then [a.msg] else [],
            Queue(st'), LiveMsgs(st'.live), Answers(s, st.next + 1));
  }

  lemma LiveRemoved(live: seq<Handler>, k: nat)
    requires k < |live|
    ensures LiveMsgs(live[..k] + live[k + 1..]) == LiveMsgs(live)[..k] + LiveMsgs(live)[k + 1..]
  {
  }

  lemma SendAccounts(front: seq<Msg>, msg: Msg, back: seq<Msg>, live: multiset<Msg>, rest: multiset<Msg>)
    requires live == rest + multiset{msg}
    ensures multiset(front + back) + live == multiset(front + [msg] + back) + rest
  {
  }

  lemma AccountedSend(s: Session, st: State, k: nat)
    requires st.next <= |s.calls| && Accounted(s, st) && Enabled(s, st, HandlerSend(k))
    ensures Accounted(s, Apply(s, st, HandlerSend(k)))
  {
    var m := LiveMsgs(st.live);
    Removed(m, k);
    LiveRemoved(st.live, k);
    QueueSend(s, st, k);
    SendAccounts(Settled(st), m[k], ReaderMsgs(st), multiset(m), multiset(m[..k] + m[k + 1..]));
  }

  lemma AccountedStep(s: Session, st: State, step: Step)
    requires Phases(s, st) && Accounted(s, st) && Enabled(s, st, step)
    ensures Phases(s, Apply(s, st, step)) && Accounted(s, Apply(s, st, step))
  {
    PhasesStep(s, st, step);
    match step {
      case Read => AccountedRead(s, st);
      case HandlerSend(k) => AccountedSend(s, st, k);
      case Finish(k) => assert LiveMsgs(Apply(s, st, step).live) == LiveMsgs(st.live);
      case _ => QueueKept(s, st, step);
    }
  }

  /** Every state of every run keeps the invariant. */
  lemma {:induction false} RunsKeepInv(s: Session, st: State, steps: seq<Step>, st': State)
    requires Inv(s, st) && Runs(s, st, steps, st')
    ensures Inv(s, st')
    decreases |steps|
  {
    if steps != [] {
      PhasesStep(s, st, steps[0]);
      OrderedStep(s, st, steps[0]);
      AccountedStep(s, st, steps[0]);
      RunsKeepInv(s, Apply(s, st, steps[0]), steps[1..], st');
    }
  }

  // ----- safety over every run -----

  /** No send, possible or blocked, ever meets a closed channel. */
  lemma NeverSendsOnClosed(s: Session, steps: seq<Step>, st: State)
    requires Runs(s, INIT, steps, st) && st.closed
    ensures !st.reader.Sending? && !st.reader.Reading?
    ensures st.live == [] && st.leaving == 0
    ensures forall step :: Enabled(s, st, step) ==> step in {Take, Encode, WriterExit, Return}
  {
    InitInv(s);
    RunsKeepInv(s, INIT, steps, st);
    forall step | Enabled(s, st, step)
      ensures step in {Take, Encode, WriterExit, Return}
    {
      ClosedStep(s, st, step);
    }
  }

  lemma ClosedStep(s: Session, st: State, step: Step)
    requires Phases(s, st) && st.closed && Enabled(s, st, step)
    ensures step in {Take, Encode, WriterExit, Return} && !st.reader.Finished?
  {
  }

  lemma {:induction false} AnswersMember(s: Session, n: nat, m: Msg)
    requires n <= |s.calls|
    ensures m in Answers(s, n) <==> m.frame < n && !ActionAt(s, m.frame).Skip? && ActionAt(s, m.frame).msg == m
  {
    if n > 0 {
      AnswersMember(s, n - 1, m);
    }
  }

  lemma OnceSnoc(msgs: seq<Msg>, x: Msg, all: seq<Msg>, m: Msg)
    requires all == msgs + [x] && x !in msgs && multiset(msgs)[m] <= 1
    ensures multiset(all)[m] <= 1
  {
    assert multiset(msgs)[x] == 0;
  }

  lemma AnswersFresh(s: Session, n: nat)
    requires 0 < n <= |s.calls| && !ActionAt(s, n - 1).Skip?
    ensures Answers(s, n) == Answers(s, n - 1) + [ActionAt(s, n - 1).msg]
    ensures ActionAt(s, n - 1).msg !in Answers(s, n - 1)
  {
    AnswersMember(s, n - 1, ActionAt(s, n - 1).msg);
  }

  lemma AnswersSkip(s: Session, n: nat)
    requires 0 < n <= |s.calls| && ActionAt(s, n - 1).Skip?
    ensures Answers(s, n) == Answers(s, n - 1)
  {
  }

  ghost predicate Once(msgs: seq<Msg>, m: Msg)
  {
    multiset(msgs)[m] <= 1
  }

  lemma AnswersOnceTurn(s: Session, n: nat, m: Msg)
    requires 0 < n <= |s.calls| && !ActionAt(s, n - 1).Skip? && Once(Answers(s, n - 1), m)
    ensures Once(Answers(s, n), m)
  {
    AnswersFresh(s, n);
    OnceSnoc(Answers(s, n - 1), ActionAt(s, n - 1).msg, Answers(s, n), m);
  }

  lemma {:induction false} AnswersOnce(s: Session, n: nat, m: Msg)
    requires n <= |s.calls|
    ensures Once(Answers(s, n), m)
  {
    if n > 0 {
      AnswersOnce(s, n - 1, m);
      if ActionAt(s, n - 1).Skip? {
        AnswersSkip(s, n);
      } else {
        AnswersOnceTurn(s, n, m);
      }
    }
  }

  lemma AnswersContain(s: Session, n: nat, m: Msg)
    requires n <= |s.calls|
    ensures m in Answers(s, n) <==>
            m.frame < n && !ActionAt(s, m.frame).Skip? && ActionAt(s, m.frame).msg == m
    ensures multiset(Answers(s, n))[m] <= 1
  {
    AnswersMember(s, n, m);
    AnswersOnce(s, n, m);
  }

  lemma SeenTwice<T>(m: seq<T>, p: nat, q: nat)
    requires p < q < |m| && m[p] == m[q]
    ensures multiset(m)[m[p]] >= 2
  {
    assert m == m[..q] + m[q..];
    assert m[..q][p] == m[p] && m[q..][0] == m[p];
  }

  /** Response `p` of `output` answers frame `n`, and nothing else there does. */
  ghost predicate Answers1(s: Session, output: seq<Msg>, n: nat, p: nat)
    requires n < |s.calls|
  {
    && p < |output| && !ActionAt(s, n).Skip? && output[p] == ActionAt(s, n).msg
    && forall q :: 0 <= q < |output| && output[q].frame == n ==> q == p
  }

  lemma UniqueAnswer(s: Session, output: seq<Msg>, n: nat) returns (p: nat)
    requires n < |s.calls| && !ActionAt(s, n).Skip?
    requires multiset(output) == multiset(Answers(s, |s.calls|))
    ensures Answers1(s, output, n, p)
  {
    var m := ActionAt(s, n).msg;
    AnswersContain(s, |s.calls|, m);
    assert m in multiset(output);
    p :| 0 <= p < |output| && output[p] == m;
    forall q | 0 <= q < |output| && output[q].frame == n
      ensures q == p
    {
      assert output[q] in multiset(output);
      AnswersContain(s, |s.calls|, output[q]);
      if p < q {
        SeenTwice(output, p, q);
      } else if q < p {
        SeenTwice(output, q, p);
      }
    }
  }

  lemma EveryFrameAnswered(s: Session, output: seq<Msg>)
    requires multiset(output) == multiset(Answers(s, |s.calls|))
    ensures forall n :: 0 <= n < |s.calls| && !s.calls[n].Blank? ==> exists p: nat :: Answers1(s, output, n, p)
  {
    forall n | 0 <= n < |s.calls| && !s.calls[n].Blank?
      ensures exists p: nat :: Answers1(s, output, n, p)
    {
      var p := UniqueAnswer(s, output, n);
    }
  }

  lemma NothingElseAnswered(s: Session, output: seq<Msg>)
    requires multiset(output) == multiset(Answers(s, |s.calls|))
    ensures forall p :: 0 <= p < |output| ==> output[p].frame < |s.calls| && !s.calls[output[p].frame].Blank?
  {
    forall p | 0 <= p < |output|
      ensures output[p].frame < |s.calls| && !s.calls[output[p].frame].Blank?
    {
      assert output[p] in multiset(output);
      AnswersContain(s, |s.calls|, output[p]);
    }
  }

  lemma FinishedState(s: Session, st: State)
    requires Inv(s, st) && st.reader.Finished?
    ensures st.next == |s.calls| && multiset(st.output) == multiset(Answers(s, |s.calls|)) && InlineOrdered(st.output)
  {
    assert Queue(st) == st.output;
  }

  /** When Run returns, under whatever schedule: every frame was read, the output is a
      rearrangement of what one frame at a time would have written, each frame but a
      blank one has exactly one response in it, and inline responses keep their place. */
  lemma FinalOutput(s: Session, steps: seq<Step>, st: State)
    requires Runs(s, INIT, steps, st) && st.reader.Finished?
    ensures st.next == |s.calls|
    ensures multiset(st.output) == multiset(Answers(s, |s.calls|))
    ensures InlineOrdered(st.output)
    ensures forall n :: 0 <= n < |s.calls| && !s.calls[n].Blank? ==> exists p: nat :: Answers1(s, st.output, n, p)
    ensures forall p :: 0 <= p < |st.output| ==>
              st.output[p].frame < |s.calls| && !s.calls[st.output[p].frame].Blank?
  {
    InitInv(s);
    RunsKeepInv(s, INIT, steps, st);
    FinishedState(s, st);
    EveryFrameAnswered(s, st.output);
    NothingElseAnswered(s, st.output);
  }

  /** Line `i` is a hello that a registered handler answers without failing. */
  predicate Greets(lines: seq<seq<Byte>>, maxLine: nat, registry: set<string>, parse: seq<Byte> -> Option<Request>,
                   outcomes: nat -> Outcome, i: nat)
    requires i < |lines|
  {
    && 0 < |lines[i]| <= maxLine && parse(lines[i]).Some? && parse(lines[i]).value.verb == "hello"
    && "hello" in registry && outcomes(i).Returned?
  }

  /** What the response to line `n` says. A line too long or not parsed is refused under no id; a
      request before any hello has succeeded is refused under its own; a hello, and any other
      request after that, is answered by its handler. */
  ghost predicate Replies(resp: Response, lines: seq<seq<Byte>>, maxLine: nat, registry: set<string>,
                          parse: seq<Byte> -> Option<Request>, outcomes: nat -> Outcome, n: nat)
    requires n < |lines|
  {
    if |lines[n]| > maxLine then Refused(resp, 0, "request exceeds the frame limit")
    else match parse(lines[n])
      case None => Refused(resp, 0, "invalid JSON")
      case Some(req) =>
        if req.verb == "hello" || exists i: nat :: i < n && Greets(lines, maxLine, registry, parse, outcomes, i)
        then Handled(resp, registry, req, outcomes(n))
        else Refused(resp, req.id, "handshake required: send hello first")
  }

  /** The session of a stream: its frames, parsed. */
  function StreamSession(registry: set<string>, data: seq<Byte>, maxLine: nat, parse: seq<Byte> -> Option<Request>,
                         outcomes: nat -> Outcome): Session
  {
    Session(registry, ParsedAll(Frames(data, maxLine), parse), outcomes)
  }

  /** The calls of a stream of lines: one a line, and a blank one for the empty tail. */
  predicate CallsOf(calls: seq<Incoming>, lines: seq<seq<Byte>>, maxLine: nat, parse: seq<Byte> -> Option<Request>)
  {
    && |calls| == |lines| + 1 && calls[|lines|].Blank?
    && forall n | 0 <= n < |lines| :: calls[n] == Parsed(Classify(lines[n], maxLine), parse)
  }

  lemma PieceCalls(lines: seq<seq<Byte>>, pieces: seq<seq<Byte>>, maxLine: nat, parse: seq<Byte> -> Option<Request>,
                   calls: seq<Incoming>)
    requires pieces == lines + [[]] && calls == ParsedAll(ClassifyAll(pieces, maxLine), parse)
    ensures CallsOf(calls, lines, maxLine, parse)
  {
    assert forall n | 0 <= n < |lines| :: pieces[n] == lines[n];
    assert forall n | 0 <= n < |pieces| :: calls[n] == Parsed(Classify(pieces[n], maxLine), parse);
  }

  lemma StreamCalls(lines: seq<seq<Byte>>, maxLine: nat, parse: seq<Byte> -> Option<Request>)
    requires forall i :: 0 <= i < |lines| ==> 10 !in lines[i]
    ensures CallsOf(ParsedAll(Frames(Sent(lines), maxLine), parse), lines, maxLine, parse)
  {
    FramesSent(lines, maxLine);
    PieceCalls(lines, lines + [[]], maxLine, parse, ParsedAll(Frames(Sent(lines), maxLine), parse));
  }

  lemma HelloGreets(s: Session, lines: seq<seq<Byte>>, maxLine: nat, parse: seq<Byte> -> Option<Request>, i: nat)
    requires CallsOf(s.calls, lines, maxLine, parse) && i < |lines|
    ensures HelloOk(s, i) <==> Greets(lines, maxLine, s.registry, parse, s.outcomes, i)
  {
    if s.calls[i].Call? {
      AnswerHandled(s.registry, s.calls[i].req, s.outcomes(i));
    }
  }

  lemma GreetedGreets(s: Session, lines: seq<seq<Byte>>, maxLine: nat, parse: seq<Byte> -> Option<Request>, n: nat)
    requires CallsOf(s.calls, lines, maxLine, parse) && n < |lines|
    ensures Greeted(s, n) <==> exists i: nat :: i < n && Greets(lines, maxLine, s.registry, parse, s.outcomes, i)
  {
    forall i: nat | i < n
      ensures HelloOk(s, i) <==> Greets(lines, maxLine, s.registry, parse, s.outcomes, i)
    {
      HelloGreets(s, lines, maxLine, parse, i);
    }
  }

  lemma ActionReplies(s: Session, lines: seq<seq<Byte>>, maxLine: nat, parse: seq<Byte> -> Option<Request>, n: nat)
    requires CallsOf(s.calls, lines, maxLine, parse) && n < |lines| && lines[n] != []
    ensures !ActionAt(s, n).Skip?
    ensures Replies(ActionAt(s, n).msg.resp, lines, maxLine, s.registry, parse, s.outcomes, n)
  {
    GreetedGreets(s, lines, maxLine, parse, n);
    if s.calls[n].Call? {
      AnswerHandled(s.registry, s.calls[n].req, s.outcomes(n));
    }
  }

  lemma CallsAnswered(s: Session, lines: seq<seq<Byte>>, maxLine: nat, parse: seq<Byte> -> Option<Request>,
                      steps: seq<Step>, st: State, n: nat) returns (p: nat)
    requires CallsOf(s.calls, lines, maxLine, parse) && n < |lines| && lines[n] != []
    requires Runs(s, INIT, steps, st) && st.reader.Finished?
    ensures OnlyReply(st.output, n, p) && Replies(st.output[p].resp, lines, maxLine, s.registry, parse, s.outcomes, n)
  {
    FinalOutput(s, steps, st);
    ActionReplies(s, lines, maxLine, parse, n);
    assert !s.calls[n].Blank?;
    p :| Answers1(s, st.output, n, p);
  }

  lemma OnlyLinesAnswered(s: Session, lines: seq<seq<Byte>>, maxLine: nat, parse: seq<Byte> -> Option<Request>,
                          steps: seq<Step>, st: State)
    requires CallsOf(s.calls, lines, maxLine, parse) && Runs(s, INIT, steps, st) && st.reader.Finished?
    ensures forall p | 0 <= p < |st.output| :: st.output[p].frame < |lines| && lines[st.output[p].frame] != []
  {
    FinalOutput(s, steps, st);
    forall p | 0 <= p < |st.output|
      ensures st.output[p].frame < |lines| && lines[st.output[p].frame] != []
    {
      assert !s.calls[st.output[p].frame].Blank?;
    }
  }

  lemma CallsAllAnswered(s: Session, lines: seq<seq<Byte>>, maxLine: nat, parse: seq<Byte> -> Option<Request>,
                         steps: seq<Step>, st: State)
    requires CallsOf(s.calls, lines, maxLine, parse) && Runs(s, INIT, steps, st) && st.reader.Finished?
    ensures forall n | 0 <= n < |lines| && lines[n] != [] ::
              exists p: nat :: OnlyReply(st.output, n, p)
                  && Replies(st.output[p].resp, lines, maxLine, s.registry, parse, s.outcomes, n)
    ensures forall p | 0 <= p < |st.output| :: st.output[p].frame < |lines| && lines[st.output[p].frame] != []
  {
    forall n | 0 <= n < |lines| && lines[n] != []
      ensures exists p: nat :: OnlyReply(st.output, n, p)
                && Replies(st.output[p].resp, lines, maxLine, s.registry, parse, s.outcomes, n)
    {
      var p := CallsAnswered(s, lines, maxLine, parse, steps, st, n);
    }
    OnlyLinesAnswered(s, lines, maxLine, parse, steps, st);
  }

  /** From the client's bytes to what is written: whatever newline-free lines are sent, with
      whatever parser and handlers and under whatever schedule, when Run returns each line but an
      empty one has exactly one response, saying what became of it, and there is nothing else. */
  lemma LinesAnswered(lines: seq<seq<Byte>>, maxLine: nat, registry: set<string>, parse: seq<Byte> -> Option<Request>,
                      outcomes: nat -> Outcome, steps: seq<Step>, st: State)
    requires forall i :: 0 <= i < |lines| ==> 10 !in lines[i]
    requires Runs(StreamSession(registry, Sent(lines), maxLine, parse, outcomes), INIT, steps, st)
    requires st.reader.Finished?
    ensures forall n | 0 <= n < |lines| && lines[n] != [] ::
              exists p: nat :: OnlyReply(st.output, n, p)
                && Replies(st.output[p].resp, lines, maxLine, registry, parse, outcomes, n)
    ensures forall p | 0 <= p < |st.output| :: st.output[p].frame < |lines| && lines[st.output[p].frame] != []
  {
    StreamCalls(lines, maxLine, parse);
    CallsAllAnswered(StreamSession(registry, Sent(lines), maxLine, parse, outcomes), lines, maxLine, parse, steps, st);
  }

  /** Response `p` is for line `n`, and no other is. */
  ghost predicate OnlyReply(output: seq<Msg>, n: nat, p: nat)
  {
    && p < |output| && output[p].frame == n
    && forall q :: 0 <= q < |output| && output[q].frame == n ==> q == p
  }

  lemma PhaseBound(s: Session, st: State)
    requires Phases(s, st)
    ensures |st.channel| <= 64
  {
  }

  /** The channel never holds more than 64 responses. */
  lemma ChannelBound(s: Session, steps: seq<Step>, st: State)
    requires Runs(s, INIT, steps, st)
    ensures |st.channel| <= 64
  {
    InitInv(s);
    assert Inv(s, st) by {
      RunsKeepInv(s, INIT, steps, st);
    }
    PhaseBound(s, st);
  }

  /** At every moment of every run, what the reader wrote itself for frame `j` precedes
      what anyone wrote for a later frame. */
  lemma InlineFirst(s: Session, steps: seq<Step>, st: State, p: nat, q: nat)
    requires Runs(s, INIT, steps, st)
    requires p < |st.output| && q < |st.output|
    requires st.output[p].inline && st.output[p].frame < st.output[q].frame
    ensures p < q
  {
    InitInv(s);
    RunsKeepInv(s, INIT, steps, st);
    assert Queue(st)[p] == st.output[p] && Queue(st)[q] == st.output[q];
    InlineBefore(Queue(st), p, q);
  }

  lemma HelloBefore(s: Session, st: State, msgs: seq<Msg>, q: nat) returns (p: nat)
    requires Inv(s, st) && msgs == Queue(st) && q < |msgs| && !msgs[q].inline
    ensures p < q && msgs[p].inline && msgs[p].frame < msgs[q].frame
    ensures msgs[p].frame < |s.calls| && HelloOk(s, msgs[p].frame)
  {
    var m := msgs[q];
    assert m in msgs;
    QueueIsAnswered(s, st, m);
    var i :| 0 <= i < m.frame && HelloOk(s, i);
    p := InlineQueued(s, st, i);
    InlineBefore(msgs, p, q);
  }

  /** A handler's response is only ever written after that of a hello which succeeded
      earlier in the input, and that hello let it through. */
  lemma HelloPrecedesHandlers(s: Session, steps: seq<Step>, st: State, q: nat)
    requires Runs(s, INIT, steps, st)
    requires q < |st.output| && !st.output[q].inline
    ensures exists p: nat :: p < q && st.output[p].inline && st.output[p].frame < st.output[q].frame
              && st.output[p].frame < |s.calls| && HelloOk(s, st.output[p].frame)
  {
    InitInv(s);
    RunsKeepInv(s, INIT, steps, st);
    var msgs := Queue(st);
    assert msgs[q] == st.output[q];
    var p := HelloBefore(s, st, msgs, q);
    assert msgs[p] == st.output[p];
  }

  lemma InlineBefore(msgs: seq<Msg>, p: nat, q: nat)
    requires InlineOrdered(msgs) && p < |msgs| && q < |msgs|
    requires msgs[p].inline && msgs[p].frame < msgs[q].frame
    ensures p < q
  {
  }

  lemma QueueIsAnswered(s: Session, st: State, m: Msg)
    requires Inv(s, st) && m in Queue(st)
    ensures m.frame < st.next && !ActionAt(s, m.frame).Skip? && m == ActionAt(s, m.frame).msg
  {
    assert m in multiset(Queue(st));
    AnswersContain(s, st.next, m);
  }

  lemma InlineQueued(s: Session, st: State, i: nat) returns (p: nat)
    requires Inv(s, st) && i < st.next && ActionAt(s, i).Emit?
    ensures p < |Queue(st)| && Queue(st)[p] == ActionAt(s, i).msg
  {
    var m := ActionAt(s, i).msg;
    AnswersContain(s, st.next, m);
    assert m in multiset(Queue(st)) + multiset(LiveMsgs(st.live));
    assert m !in LiveMsgs(st.live);
    p :| 0 <= p < |Queue(st)| && Queue(st)[p] == m;
  }

  // ----- progress -----

  /** What is left to do, weighing each frame by the steps it can still cause. */
  function Measure(s: Session, st: State): int
  {
    6 * (|s.calls| - st.next)
    + (match st.reader case Reading => 3 case Sending(_) => 6 case Waiting => 2 case Closing => 1 case Finished => 0)
    + LiveWork(st.live) + st.leaving
    + 2 * |st.channel|
    + (match st.writer case Idle => 1 case Writing(_) => 2 case Exited => 0)
  }

  function LiveWork(live: seq<Handler>): (n: nat)
    ensures n >= 4 * |live|
  {
    if live == [] then 0 else (if live[0].Running? then 5 else 4) + LiveWork(live[1..])
  }

  lemma {:induction false} LiveWorkConcat(a: seq<Handler>, b: seq<Handler>)
    ensures LiveWork(a + b) == LiveWork(a) + LiveWork(b)
  {
    if a == [] {
      assert a + b == b;
    } else {
      assert (a + b)[1..] == a[1..] + b;
      LiveWorkConcat(a[1..], b);
    }
  }

  lemma LiveWorkAt(live: seq<Handler>, k: nat)
    requires k < |live|
    ensures LiveWork(live) == LiveWork(live[..k] + live[k + 1..]) + LiveWork([live[k]])
    ensures LiveWork(live[k := Emitting(live[k].msg)]) == LiveWork(live[..k] + live[k + 1..]) + 4
  {
    LiveWorkConcat(live[..k], live[k + 1..]);
    LiveWorkConcat([live[k]], live[k + 1..]);
    LiveWorkConcat(live[..k], [live[k]] + live[k + 1..]);
    assert live == live[..k] + ([live[k]] + live[k + 1..]);
    var now := Emitting(live[k].msg);
    LiveWorkConcat([now], live[k + 1..]);
    LiveWorkConcat(live[..k], [now] + live[k + 1..]);
    assert live[k := now] == live[..k] + ([now] + live[k + 1..]);
  }

  lemma ReadDescends(s: Session, st: State)
    requires Inv(s, st) && Enabled(s, st, Read)
    ensures Measure(s, Apply(s, st, Read)) < Measure(s, st)
  {
    var a := ActionAt(s, st.next);
    if a.Spawn? {
      LiveWorkConcat(st.live, [Running(a.msg)]);
    }
  }

  /** Every step of every schedule uses up some of what is left. */
  lemma StepsDescend(s: Session, st: State, step: Step)
    requires Inv(s, st) && Enabled(s, st, step)
    ensures 0 <= Measure(s, Apply(s, st, step)) < Measure(s, st)
  {
    PhasesStep(s, st, step);
    match step {
      case Read => ReadDescends(s, st);
      case Finish(k) => LiveWorkAt(st.live, k);
      case HandlerSend(k) => LiveWorkAt(st.live, k);
      case _ =>
    }
  }

  lemma InvStep(s: Session, st: State, step: Step)
    requires Inv(s, st) && Enabled(s, st, step)
    ensures Inv(s, Apply(s, st, step))
  {
    PhasesStep(s, st, step);
    OrderedStep(s, st, step);
    AccountedStep(s, st, step);
  }

  /** A step some process can take, the channel full or not. */
  ghost function Ready(s: Session, st: State): (step: Step)
    requires Inv(s, st) && !st.reader.Finished?
    ensures Enabled(s, st, step)
  {
    if st.writer.Writing? then Encode
    else if st.writer.Idle? && st.channel != [] then Take
    else match st.reader
      case Reading => if st.next < |s.calls| then Read else StopReading
      case Sending(_) => ReaderSend
      case Waiting =>
        if st.live != [] then (if st.live[0].Running? then Finish(0) else HandlerSend(0))
        else if st.leaving > 0 then Leave else CloseChannel
      case Closing => if st.writer.Idle? then WriterExit else Return
  }

  /** No run is longer than six steps a frame and four more. */
  lemma {:induction false} RunsAreBounded(s: Session, st: State, steps: seq<Step>, st': State)
    requires Inv(s, st) && Runs(s, st, steps, st')
    ensures |steps| + Measure(s, st') <= Measure(s, st)
    ensures st == INIT ==> |steps| <= 6 * |s.calls| + 4
    ensures Measure(s, st') >= 0
    decreases |steps|
  {
    if steps != [] {
      StepsDescend(s, st, steps[0]);
      InvStep(s, st, steps[0]);
      RunsAreBounded(s, Apply(s, st, steps[0]), steps[1..], st');
    }
  }

  lemma FinishedRests(s: Session, st: State)
    requires Inv(s, st) && st.reader.Finished?
    ensures forall step :: !Enabled(s, st, step)
  {
    forall step
      ensures !Enabled(s, st, step)
    {
      if Enabled(s, st, step) {
        ClosedStep(s, st, step);
      }
    }
  }

  lemma ReadyIsEnabled(s: Session, st: State)
    requires Inv(s, st) && !st.reader.Finished?
    ensures exists step :: Enabled(s, st, step)
  {
    var step := Ready(s, st);
  }

  /** No reachable state short of the return is stuck, and every schedule that keeps
      going therefore ends with Run returning, within the bound. */
  lemma NeverStuck(s: Session, steps: seq<Step>, st: State)
    requires Runs(s, INIT, steps, st)
    ensures |steps| <= 6 * |s.calls| + 4
    ensures (forall step :: !Enabled(s, st, step)) <==> st.reader.Finished?
  {
    InitInv(s);
    RunsKeepInv(s, INIT, steps, st);
    RunsAreBounded(s, INIT, steps, st);
    if st.reader.Finished? {
      FinishedRests(s, st);
    } else {
      ReadyIsEnabled(s, st);
    }
  }

  // ----- the one-at-a-time run -----

  lemma {:induction false} RunsConcat(s: Session, st: State, a: seq<Step>, mid: State, b: seq<Step>, st': State)
    requires Runs(s, st, a, mid) && Runs(s, mid, b, st')
    ensures Runs(s, st, a + b, st')
    decreases |a|
  {
    if a == [] {
      assert a + b == b;
    } else {
      assert (a + b)[1..] == a[1..] + b;
      RunsConcat(s, Apply(s, st, a[0]), a[1..], mid, b, st');
    }
  }

  lemma RunsSnoc(s: Session, st: State, steps: seq<Step>, mid: State, step: Step)
    requires Runs(s, st, steps, mid) && Enabled(s, mid, step)
    ensures Runs(s, st, steps + [step], Apply(s, mid, step))
  {
    assert [step][1..] == [];
    assert Runs(s, mid, [step], Apply(s, mid, step));
    RunsConcat(s, st, steps, mid, [step], Apply(s, mid, step));
  }

  /** The idle server with `n` frames behind it, all answered. */
  function Rested(s: Session, n: nat): State
    requires n <= |s.calls|
  {
    State(n, Greeted(s, n), Reading, [], 0, [], false, Idle, Answers(s, n))
  }

  /** One queued response goes out through an idle writer. */
  lemma Flush(s: Session, st: State, m: Msg)
    requires st.channel == [m] && st.writer.Idle?
    ensures Runs(s, st, [Take, Encode], st.(channel := [], output := st.output + [m]))
  {
    var taken := st.(writer := Writing(m), channel := []);
    assert Apply(s, st, Take) == taken;
    RunsSnoc(s, st, [], st, Take);
    assert [] + [Take] == [Take] && [Take] + [Encode] == [Take, Encode];
    RunsSnoc(s, st, [Take], taken, Encode);
  }

  lemma ServeInline(s: Session, n: nat)
    requires n < |s.calls| && ActionAt(s, n).Emit?
    ensures Runs(s, Rested(s, n), [Read, ReaderSend] + [Take, Encode], Rested(s, n + 1))
  {
    var st, m := Rested(s, n), ActionAt(s, n).msg;
    GreetedStep(s, n);
    var read := st.(next := n + 1, greeted := Greeted(s, n + 1), reader := Sending(m));
    assert Apply(s, st, Read) == read;
    RunsSnoc(s, st, [], st, Read);
    assert [] + [Read] == [Read] && [Read] + [ReaderSend] == [Read, ReaderSend];
    RunsSnoc(s, st, [Read], read, ReaderSend);
    var sent := read.(reader := Reading, channel := [m]);
    assert Apply(s, read, ReaderSend) == sent;
    Flush(s, sent, m);
    RunsConcat(s, st, [Read, ReaderSend], sent, [Take, Encode], Rested(s, n + 1));
  }

  lemma ServeSpawned(s: Session, n: nat)
    requires n < |s.calls| && ActionAt(s, n).Spawn?
    ensures Runs(s, Rested(s, n), [Read, Finish(0)] + [HandlerSend(0), Leave] + [Take, Encode], Rested(s, n + 1))
  {
    var st, m := Rested(s, n), ActionAt(s, n).msg;
    GreetedStep(s, n);
    var read := st.(next := n + 1, greeted := Greeted(s, n + 1), live := [Running(m)]);
    assert Apply(s, st, Read) == read;
    RunsSnoc(s, st, [], st, Read);
    assert [] + [Read] == [Read] && [Read] + [Finish(0)] == [Read, Finish(0)];
    RunsSnoc(s, st, [Read], read, Finish(0));
    var ended := read.(live := [Emitting(m)]);
    assert Apply(s, read, Finish(0)) == ended;
    var sent := read.(live := [], leaving := 1, channel := [m]);
    assert Apply(s, ended, HandlerSend(0)) == sent;
    RunsSnoc(s, ended, [], ended, HandlerSend(0));
    assert [] + [HandlerSend(0)] == [HandlerSend(0)] && [HandlerSend(0)] + [Leave] == [HandlerSend(0), Leave];
    RunsSnoc(s, ended, [HandlerSend(0)], sent, Leave);
    var left := sent.(leaving := 0);
    assert Apply(s, sent, Leave) == left;
    RunsConcat(s, st, [Read, Finish(0)], ended, [HandlerSend(0), Leave], left);
    Flush(s, left, m);
    RunsConcat(s, st, [Read, Finish(0)] + [HandlerSend(0), Leave], left, [Take, Encode], Rested(s, n + 1));
  }

  lemma ServeOne(s: Session, n: nat) returns (more: seq<Step>)
    requires n < |s.calls|
    ensures Runs(s, Rested(s, n), more, Rested(s, n + 1))
  {
    if ActionAt(s, n).Skip? {
      ServeBlank(s, n);
      more := [Read];
    } else if ActionAt(s, n).Emit? {
      ServeInline(s, n);
      more := [Read, ReaderSend] + [Take, Encode];
    } else {
      ServeSpawned(s, n);
      more := [Read, Finish(0)] + [HandlerSend(0), Leave] + [Take, Encode];
    }
  }

  lemma ServeBlank(s: Session, n: nat)
    requires n < |s.calls| && ActionAt(s, n).Skip?
    ensures Runs(s, Rested(s, n), [Read], Rested(s, n + 1))
  {
    GreetedStep(s, n);
    assert [Read][1..] == [];
    assert Apply(s, Rested(s, n), Read) == Rested(s, n + 1);
  }

  lemma FillOne(s: Session, steps: seq<Step>, st: State, n: nat) returns (more: seq<Step>, full: State)
    requires Runs(s, INIT, steps, st) && st.reader.Reading? && st.next == n < |s.calls| && |st.channel| == n < 64
    requires s.calls[n].Garbled?
    ensures Runs(s, INIT, more, full) && full.reader.Reading? && full.next == n + 1 && |full.channel| == n + 1
  {
    RunsSnoc(s, INIT, steps, st, Read);
    var read := Apply(s, st, Read);
    assert read.reader.Sending? && read.channel == st.channel;
    RunsSnoc(s, INIT, steps + [Read], read, ReaderSend);
    more, full := steps + [Read] + [ReaderSend], Apply(s, read, ReaderSend);
  }

  /** With the writer held up, it does come to hold 64. */
  lemma {:induction false} ChannelFills(s: Session, n: nat) returns (steps: seq<Step>, st: State)
    requires n <= 64 && n <= |s.calls| && forall i | 0 <= i < n :: s.calls[i].Garbled?
    ensures Runs(s, INIT, steps, st) && st.reader.Reading? && st.next == n && |st.channel| == n
  {
    if n == 0 {
      steps, st := [], INIT;
    } else {
      steps, st := ChannelFills(s, n - 1);
      steps, st := FillOne(s, steps, st, n - 1);
    }
  }

  /** Some schedule handles one frame at a time, and writes the answers in frame order. */
  lemma {:induction false} SerialRun(s: Session, n: nat) returns (steps: seq<Step>)
    requires n <= |s.calls|
    ensures Runs(s, INIT, steps, Rested(s, n))
  {
    steps := [];
    if n == 0 {
      assert Rested(s, 0) == INIT;
    } else {
      steps := SerialRun(s, n - 1);
      var more := ServeOne(s, n - 1);
      RunsConcat(s, INIT, steps, Rested(s, n - 1), more, Rested(s, n));
      steps := steps + more;
    }
  }

  /** Every finished run writes a rearrangement of what the one-at-a-time run writes. */
  lemma MatchesSerialRun(s: Session, steps: seq<Step>, st: State) returns (serial: seq<Step>, st': State)
    requires Runs(s, INIT, steps, st) && st.reader.Finished?
    ensures Runs(s, INIT, serial, st') && st'.reader.Finished? && st'.output == Answers(s, |s.calls|)
    ensures multiset(st.output) == multiset(st'.output)
  {
    serial := SerialRun(s, |s.calls|);
    st' := Rested(s, |s.calls|);
    RunsSnoc(s, INIT, serial, st', StopReading);
    st', serial := Apply(s, st', StopReading), serial + [StopReading];
    RunsSnoc(s, INIT, serial, st', CloseChannel);
    st', serial := Apply(s, st', CloseChannel), serial + [CloseChannel];
    RunsSnoc(s, INIT, serial, st', WriterExit);
    st', serial := Apply(s, st', WriterExit), serial + [WriterExit];
    RunsSnoc(s, INIT, serial, st', Return);
    st', serial := Apply(s, st', Return), serial + [Return];
    FinalOutput(s, steps, st);
  }
}
