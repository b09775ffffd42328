/** What the reader does with each frame: the hello gate, and the answer a handler's
    outcome becomes. Parsing and handler bodies are left open: a parser is any function,
    and a handler's outcome is any value. */
module Dispatch {
  import opened Split
  import opened Wrappers
  import opened Framing

  datatype Request = Request(id: int, verb: string, params: seq<Byte>)

  /** A frame after parsing. */
  datatype Incoming = Blank | TooLong | Garbled | Call(req: Request)

  datatype HandlerError = Coded(code: string, message: string, retryAfter: int) | Plain(message: string)

  /** How a handler ends: it returns, fails, or panics. */
  datatype Outcome = Returned(result: Option<string>) | Failed(err: HandlerError) | Panicked

  datatype RpcError = RpcError(code: string, message: string, retryAfter: int)

  datatype Response = Response(id: int, result: Option<string>, error: Option<RpcError>)

  /** A response as queued: the frame it answers, and whether the reader wrote it inline. */
  datatype Msg = Msg(frame: nat, inline: bool, resp: Response)

  /** What the reader does with a frame: nothing, queue a response itself, or start a
      handler that will queue one. */
  datatype Action = Skip | Emit(msg: Msg) | Spawn(msg: Msg)

  const HELLO := "hello"
  const BAD_REQUEST := "bad_request"
  const INTERNAL := "internal"

  function BadRequest(id: int, message: string): Response
  {
    Response(id, None, Some(RpcError(BAD_REQUEST, message, 0)))
  }

  function ToRpcError(err: HandlerError): RpcError
  {
    match err
    case Coded(code, message, retryAfter) => RpcError(code, message, retryAfter)
    case Plain(_) => RpcError(INTERNAL, "internal error", 0)
  }

  function Answer(registry: set<string>, req: Request, outcome: Outcome): Response
  {
    if req.verb !in registry then BadRequest(req.id, "unknown method: " + req.verb)
    else match outcome
      case Returned(result) => Response(req.id, result, None)
      case Failed(err) => Response(req.id, None, Some(ToRpcError(err)))
      case Panicked => Response(req.id, None, Some(RpcError(INTERNAL, "internal error", 0)))
  }

  /** What a handled request's response says: the handler's result and no error, or the error that
      stands for how it ended and no result. */
  predicate Handled(resp: Response, registry: set<string>, req: Request, outcome: Outcome)
  {
    && resp.id == req.id
    && if req.verb !in registry then
         resp.result.None? && resp.error == Some(RpcError("bad_request", "unknown method: " + req.verb, 0))
       else match outcome
         case Returned(result) => resp.result == result && resp.error.None?
         case Failed(Coded(code, message, retryAfter)) =>
           resp.result.None? && resp.error == Some(RpcError(code, message, retryAfter))
         case Failed(Plain(_)) => resp.result.None? && resp.error == Some(RpcError("internal", "internal error", 0))
         case Panicked => resp.result.None? && resp.error == Some(RpcError("internal", "internal error", 0))
  }

  /** A response that refuses a request. */
  predicate Refused(resp: Response, id: int, message: string)
  {
    resp.id == id && resp.result.None? && resp.error == Some(RpcError("bad_request", message, 0))
  }

  lemma AnswerHandled(registry: set<string>, req: Request, outcome: Outcome)
    ensures Handled(Answer(registry, req, outcome), registry, req, outcome)
  {
  }

  /** One session: the registered methods, the parsed frames, and the outcome of the
      handler each frame would start. A frame starts at most one handler, so naming the
      outcomes in advance covers whatever the handlers do under every schedule. */
  datatype Session = Session(registry: set<string>, calls: seq<Incoming>, outcomes: nat -> Outcome)

  /** Whether frame `i` is a hello that succeeds. */
  predicate HelloOk(s: Session, i: nat)
    requires i < |s.calls|
  {
    s.calls[i].Call? && s.calls[i].req.verb == HELLO
    && Answer(s.registry, s.calls[i].req, s.outcomes(i)).error.None?
  }

  /** The gate before frame `n`: open once some earlier hello has succeeded. */
  predicate Greeted(s: Session, n: nat)
    requires n <= |s.calls|
  {
    exists i :: 0 <= i < n && HelloOk(s, i)
  }

  function Act(s: Session, greeted: bool, n: nat): Action
    requires n < |s.calls|
  {
    match s.calls[n]
    case Blank => Skip
    case TooLong => Emit(Msg(n, true, BadRequest(0, "request exceeds the frame limit")))
    case Garbled => Emit(Msg(n, true, BadRequest(0, "invalid JSON")))
    case Call(req) =>
      if req.verb == HELLO then Emit(Msg(n, true, Answer(s.registry, req, s.outcomes(n))))
      else if !greeted then Emit(Msg(n, true, BadRequest(req.id, "handshake required: send hello first")))
      else Spawn(Msg(n, false, Answer(s.registry, req, s.outcomes(n))))
  }

  function ActionAt(s: Session, n: nat): (a: Action)
    requires n < |s.calls|
    ensures a.Skip? <==> s.calls[n].Blank?
    ensures !a.Skip? ==> a.msg.frame == n && a.msg.inline == a.Emit?
    ensures a.Spawn? <==> s.calls[n].Call? && s.calls[n].req.verb != HELLO && Greeted(s, n)
    ensures s.calls[n].Call? ==> a.msg.resp.id == s.calls[n].req.id
    ensures s.calls[n].TooLong? || s.calls[n].Garbled? ==>
              a.msg.resp.id == 0 && a.msg.resp.error.Some? && a.msg.resp.error.value.code == BAD_REQUEST
  {
    Act(s, Greeted(s, n), n)
  }

  lemma GreetedStep(s: Session, n: nat)
    requires n < |s.calls|
    ensures Greeted(s, n + 1) <==> Greeted(s, n) || HelloOk(s, n)
  {
  }

  /** The reader's actions on the first `n` frames. */
  function Actions(s: Session, n: nat): (acts: seq<Action>)
    requires n <= |s.calls|
    ensures |acts| == n
  {
    if n == 0 then [] else Actions(s, n - 1) + [ActionAt(s, n - 1)]
  }

  function Parsed(frame: Frame, parse: seq<Byte> -> Option<Request>): Incoming
  {
    match frame
    case Blank => Incoming.Blank
    case Oversized => TooLong
    case Line(bytes) => match parse(bytes) case None => Garbled case Some(req) => Call(req)
  }

  function ParsedAll(frames: seq<Frame>, parse: seq<Byte> -> Option<Request>): (calls: seq<Incoming>)
    ensures |calls| == |frames|
    ensures forall i :: 0 <= i < |calls| ==> calls[i] == Parsed(frames[i], parse)
  {
    if frames == [] then [] else [Parsed(frames[0], parse)] + ParsedAll(frames[1..], parse)
  }

  /** Runs a handler, turning a panic into an internal error. */
  method RunHandler(registry: set<string>, req: Request, outcome: Outcome) returns (resp: Response)
    ensures resp == Answer(registry, req, outcome)
    ensures resp.id == req.id && (resp.error.Some? ==> resp.result.None?)
    ensures req.verb !in registry ==> resp.error == Some(RpcError("bad_request", "unknown method: " + req.verb, 0))
    ensures req.verb in registry && outcome.Returned? ==> resp.error.None? && resp.result == outcome.result
    ensures req.verb in registry && outcome.Failed? && outcome.err.Coded? ==>
              resp.error == Some(RpcError(outcome.err.code, outcome.err.message, outcome.err.retryAfter))
    ensures req.verb in registry && (outcome.Panicked? || (outcome.Failed? && outcome.err.Plain?)) ==>
              resp.error == Some(RpcError("internal", "internal error", 0))
  {
    resp := Response(req.id, None, None);
    if req.verb !in registry {
      return resp.(error := Some(RpcError(BAD_REQUEST, "unknown method: " + req.verb, 0)));
    }
    match outcome {
      case Panicked =>
        resp := resp.(result := None, error := Some(RpcError(INTERNAL, "internal error", 0)));
      case Failed(err) =>
        resp := resp.(error := Some(ToRpcError(err)));
      case Returned(result) =>
        resp := resp.(result := result);
    }
  }

  /** The reader's side of a server. */
  class Server {
    const registry: set<string>
    var helloOK: bool

    constructor (registry: set<string>)
      ensures this.registry == registry && !helloOK
    {
      this.registry := registry;
      helloOK := false;
    }

    /** Routes parsed frame `n`. A hello is answered inline and opens the gate when it
        succeeds; anything else is refused before the gate opens and gets a handler after. */
    method Dispatch(ghost s: Session, n: nat, req: Request, outcome: Outcome) returns (action: Action)
      requires n < |s.calls| && s.registry == registry && s.calls[n] == Call(req) && outcome == s.outcomes(n)
      requires helloOK == Greeted(s, n)
      modifies this
      ensures action == ActionAt(s, n) && helloOK == Greeted(s, n + 1)
    {
      GreetedStep(s, n);
      if req.verb == HELLO {
        var resp := RunHandler(registry, req, outcome);
        if resp.error == None {
          helloOK := true;
        }
        return Emit(Msg(n, true, resp));
      }
      if !helloOK {
        return Emit(Msg(n, true, BadRequest(req.id, "handshake required: send hello first")));
      }
      var resp := RunHandler(registry, req, outcome);
      return Spawn(Msg(n, false, resp));
    }

    /** What the reader does with one frame as read. */
    method HandleFrame(ghost s: Session, n: nat, line: seq<Byte>, oversized: bool, parse: seq<Byte> -> Option<Request>,
                       outcomes: nat -> Outcome)
      returns (action: Action)
      requires n < |s.calls| && s.registry == registry && s.outcomes == outcomes
      requires s.calls[n] == Parsed(Received(line, oversized), parse)
      requires helloOK == Greeted(s, n)
      modifies this
      ensures action == ActionAt(s, n) && helloOK == Greeted(s, n + 1)
    {
      GreetedStep(s, n);
      if oversized {
        return Emit(Msg(n, true, BadRequest(0, "request exceeds the frame limit")));
      }
      if |line| > 0 {
        match parse(line) {
          case None =>
            return Emit(Msg(n, true, BadRequest(0, "invalid JSON")));
          case Some(req) =>
            action := Dispatch(s, n, req, outcomes(n));
            return;
        }
      }
      return Skip;
    }

    /** Run's read loop over a whole stream: one action per frame, and the stream's error
        unless it is a plain end of input. */
    method ReadLoop(r: Reader, maxLine: nat, parse: seq<Byte> -> Option<Request>, outcomes: nat -> Outcome)
      returns (actions: seq<Action>, readErr: Option<StreamEnd>)
      requires r.size > 0 && !helloOK
      modifies this, r
      ensures var s := Session(registry, ParsedAll(Frames(old(r.rest), maxLine), parse), outcomes);
              actions == Actions(s, |s.calls|) && helloOK == Greeted(s, |s.calls|)
      ensures readErr == if r.end.Eof? then None else Some(r.end)
      ensures r.rest == []
    {
      ghost var frames := Frames(r.rest, maxLine);
      ghost var s := Session(registry, ParsedAll(frames, parse), outcomes);
      actions := [];
      while true
        invariant |actions| < |frames| && frames[|actions|..] == Frames(r.rest, maxLine)
        invariant actions == Actions(s, |actions|) && helloOK == Greeted(s, |actions|)
        decreases |frames| - |actions|
      {
        ghost var before := r.rest;
        var n := |actions|;
        NextFrame(frames, n, before, maxLine);
        var line, oversized, e, _ := ReadFrame(r, maxLine);
        var action := HandleFrame(s, n, line, oversized, parse, outcomes);
        actions := actions + [action];
        if !e.Nil? {
          readErr := if e.Ended? && e.end.Eof? then None else Some(r.end);
          return;
        }
      }
    }
  }

  /** A frame as the reader hands it over. */
  function Received(line: seq<Byte>, oversized: bool): Frame
  {
    if oversized then Oversized else if |line| > 0 then Line(line) else Frame.Blank
  }

  /** The frame the reader is at, and the frames after it. */
  lemma NextFrame(frames: seq<Frame>, n: nat, rest: seq<Byte>, maxLine: nat)
    requires n < |frames| && frames[n..] == Frames(rest, maxLine)
    ensures var k := IndexOf(rest, NEWLINE);
            && frames[n] == Received(if k > maxLine then [] else rest[..k], k > maxLine)
            && (k < |rest| ==> n + 1 < |frames| && frames[n + 1..] == Frames(AfterFrame(rest), maxLine))
            && (k == |rest| ==> n + 1 == |frames|)
  {
    FramesUnfold(rest, maxLine);
    assert frames[n] == frames[n..][0] && frames[n + 1..] == frames[n..][1..];
    var k := IndexOf(rest, NEWLINE);
    if k < |rest| {
      FramesUnfold(AfterFrame(rest), maxLine);
    }
  }
}
