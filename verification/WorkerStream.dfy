/** The worker's event stream (`src/utteran/worker.py`) and its consumer
    (`src/utteran_contracts/worker_state.py`). The worker's main and control threads, its
    pipes and the client are one state machine whose steps interleave freely. */
module WorkerStream {
  import opened Basics

  datatype Code =
    | MalformedMessage | SchemaMismatch | ProtocolMismatch | OversizedMessage | UnexpectedEof
    | IdMismatch | InvalidSequence | Cancelled | Failure(reason: nat)

  /** The codes that may reject a request before it has an identity. */
  predicate PreAccepted(code: Code) {
    code in {MalformedMessage, SchemaMismatch, ProtocolMismatch, OversizedMessage, UnexpectedEof}
  }

  datatype Capability = Single | CancelCapability

  datatype Body =
    | Hello(profile: nat, capabilities: seq<Capability>)
    | Accepted | Progress | CancelAcknowledged | Completed | Error(code: Code)

  datatype Ids = Ids(request: nat, job: nat, attempt: nat)

  /** An event has all three identifiers or none. */
  datatype Event = Event(sequence: nat, ids: Option<Ids>, body: Body)

  datatype Request = Request(ids: Ids, profile: nat)

  predicate Terminal(b: Body) {
    b.Completed? || b.Error?
  }

  // ---------------------------------------------------------------- the consumer

  datatype View = View(sequence: nat, accepted: bool, terminal: Option<Body>, cancelSent: bool, cancelAcknowledged: bool)

  datatype Verdict = Continue(view: View) | Raise(code: Code)

  /** What `accept` does with one event. */
  function Accept(v: View, request: Request, event: Event): Verdict {
    if event.sequence != v.sequence || v.terminal.Some? then Raise(InvalidSequence)
    else if v.sequence == 0 then
      if !event.body.Hello? then Raise(InvalidSequence)
      else if event.body.profile != request.profile then Raise(IdMismatch)
      else if |event.body.capabilities| != 2 || (set c | c in event.body.capabilities) != {Single, CancelCapability} then Raise(ProtocolMismatch)
      else Continue(v.(sequence := 1))
    else if event.body.Hello? then Raise(InvalidSequence)
    else
      var anonymous := event.body.Error? && !v.accepted && v.sequence == 1 && event.ids.None?;
      if anonymous && !PreAccepted(event.body.code) then Raise(InvalidSequence)
      else if !anonymous && event.ids != Some(request.ids) then Raise(IdMismatch)
      else
        var next := v.(sequence := v.sequence + 1);
        match event.body
        case Accepted => if v.accepted then Raise(InvalidSequence) else Continue(next.(accepted := true))
        case Error(_) => Continue(next.(terminal := Some(event.body)))
        case Progress => if !v.accepted then Raise(InvalidSequence) else Continue(next)
        case CancelAcknowledged =>
          if !v.accepted || !v.cancelSent then Raise(InvalidSequence) else Continue(next.(cancelAcknowledged := true))
        case Completed => if !v.accepted then Raise(InvalidSequence) else Continue(next.(terminal := Some(event.body)))
  }

  class EventSequence {
    const request: Request
    var sequence: nat
    var accepted: bool
    var terminal: Option<Body>
    var cancelSent: bool
    var cancelAcknowledged: bool

    constructor (request: Request)
      ensures this.request == request && Current() == Fresh(false)
    {
      this.request := request;
      sequence, accepted, terminal, cancelSent, cancelAcknowledged := 0, false, None, false, false;
    }

    ghost function Current(): View
      reads this
    {
      View(sequence, accepted, terminal, cancelSent, cancelAcknowledged)
    }

    /** Updates the fields in place; an event that raises changes nothing. */
    method AcceptEvent(event: Event) returns (error: Option<Code>)
      modifies this
      ensures match Accept(old(Current()), request, event)
              case Continue(v) => error == None && Current() == v
              case Raise(code) => error == Some(code) && Current() == old(Current())
    {
      if event.sequence != sequence || terminal.Some? { return Some(InvalidSequence); }
      if sequence == 0 {
        if !event.body.Hello? { return Some(InvalidSequence); }
        if event.body.profile != request.profile { return Some(IdMismatch); }
        if |event.body.capabilities| != 2 || (set c | c in event.body.capabilities) != {Single, CancelCapability} {
          return Some(ProtocolMismatch);
        }
      } else {
        if event.body.Hello? { return Some(InvalidSequence); }
        var anonymous := event.body.Error? && !accepted && sequence == 1 && event.ids.None?;
        if anonymous {
          if !PreAccepted(event.body.code) { return Some(InvalidSequence); }
        } else if event.ids != Some(request.ids) {
          return Some(IdMismatch);
        }
        if event.body.Accepted? {
          if accepted { return Some(InvalidSequence); }
          accepted := true;
        } else if event.body.Error? {
          terminal := Some(event.body);
        } else if !accepted {
          return Some(InvalidSequence);
        } else if event.body.CancelAcknowledged? {
          if !cancelSent { return Some(InvalidSequence); }
          cancelAcknowledged := true;
        } else if event.body.Completed? {
          terminal := Some(event.body);
        }
      }
      sequence := sequence + 1;
      error := None;
    }
  }

  function Fresh(cancelSent: bool): View {
    View(0, false, None, cancelSent, false)
  }

  // ---------------------------------------------------------------- the language of the protocol

  ghost predicate GoodHello(b: Body, request: Request) {
    b.Hello? && b.profile == request.profile && |b.capabilities| == 2 && Single in b.capabilities && CancelCapability in b.capabilities
  }

  /** The request is turned down: anonymously with a structural code, or under its identity. */
  ghost predicate Rejection(event: Event, request: Request) {
    event.body.Error? && (event.ids == Some(request.ids) || (event.ids.None? && PreAccepted(event.body.code)))
  }

  /** Event `i` is in its place: hello, then a rejection that ends the stream, or an acceptance
      followed by progress, acknowledgements and at most one last terminal event. */
  ghost predicate Fits(events: seq<Event>, i: nat, request: Request, cancelSent: bool)
    requires i < |events|
  {
    && events[i].sequence == i
    && (i > 0 ==> !Terminal(events[i - 1].body))
    && if i == 0 then GoodHello(events[i].body, request)
       else if i == 1 then (events[i].body.Accepted? && events[i].ids == Some(request.ids)) || Rejection(events[i], request)
       else
         && events[i].ids == Some(request.ids)
         && (events[i].body.Progress? || Terminal(events[i].body) || (events[i].body.CancelAcknowledged? && cancelSent))
  }

  ghost predicate InLanguage(events: seq<Event>, request: Request, cancelSent: bool) {
    forall i {:trigger Fits(events, i, request, cancelSent)} | 0 <= i < |events| :: Fits(events, i, request, cancelSent)
  }

  /** The consumer on a whole stream, with `cancelSent` set before it starts. */
  ghost function AcceptAll(events: seq<Event>, n: nat, request: Request, cancelSent: bool): Verdict
    requires n <= |events|
  {
    if n == 0 then Continue(Fresh(cancelSent))
    else
      match AcceptAll(events, n - 1, request, cancelSent)
      case Raise(code) => Raise(code)
      case Continue(v) => Accept(v, request, events[n - 1])
  }

  /** The consumer's fields after the first `n` events of a stream in the language. */
  ghost predicate Tracks(v: View, events: seq<Event>, n: nat)
    requires n <= |events|
  {
    && v.sequence == n
    && (v.accepted <==> n >= 2 && events[1].body.Accepted?)
    && v.terminal == (if n >= 1 && Terminal(events[n - 1].body) then Some(events[n - 1].body) else None)
    && (v.cancelAcknowledged <==> exists i {:trigger events[i]} :: 0 <= i < n && events[i].body.CancelAcknowledged?)
  }

  lemma CapabilitySet(s: seq<Capability>)
    ensures (set c | c in s) == {Single, CancelCapability} <==> Single in s && CancelCapability in s
  {
    if Single in s && CancelCapability in s {
      forall c | c in s ensures c == Single || c == CancelCapability { match c case Single => case CancelCapability => }
    }
  }

  lemma AcceptStep(v: View, events: seq<Event>, n: nat, request: Request)
    requires n < |events| && Tracks(v, events, n) && InLanguage(events[..n], request, v.cancelSent)
    ensures Accept(v, request, events[n]).Continue? <==> Fits(events, n, request, v.cancelSent)
    ensures Accept(v, request, events[n]).Continue? ==>
              Tracks(Accept(v, request, events[n]).view, events, n + 1) && Accept(v, request, events[n]).view.cancelSent == v.cancelSent
  {
    if n == 0 && events[0].body.Hello? { CapabilitySet(events[0].body.capabilities); }
    if n > 1 {
      assert Fits(events[..n], 1, request, v.cancelSent);
      assert !Terminal(events[n - 1].body) ==> events[1].body.Accepted? by {
        if n > 2 { assert Fits(events[..n], 2, request, v.cancelSent); }
      }
    }
  }

  /** The consumer accepts exactly the streams of the language, and its fields tell where it is. */
  lemma {:induction false} AcceptsTheLanguage(events: seq<Event>, n: nat, request: Request, cancelSent: bool)
    requires n <= |events|
    ensures AcceptAll(events, n, request, cancelSent).Continue? <==> InLanguage(events[..n], request, cancelSent)
    ensures AcceptAll(events, n, request, cancelSent).Continue? ==>
              Tracks(AcceptAll(events, n, request, cancelSent).view, events, n)
              && AcceptAll(events, n, request, cancelSent).view.cancelSent == cancelSent
  {
    if n > 0 {
      AcceptsTheLanguage(events, n - 1, request, cancelSent);
      PrefixLanguage(events, n - 1, request, cancelSent);
      var before := AcceptAll(events, n - 1, request, cancelSent);
      if before.Continue? { AcceptStep(before.view, events, n - 1, request); }
    }
  }

  /** One more event is in the language exactly when it fits. */
  lemma PrefixLanguage(events: seq<Event>, n: nat, request: Request, cancelSent: bool)
    requires n < |events|
    ensures InLanguage(events[..n + 1], request, cancelSent)
       <==> InLanguage(events[..n], request, cancelSent) && Fits(events, n, request, cancelSent)
  {
    var long, short := events[..n + 1], events[..n];
    assert long[n] == events[n] && (n > 0 ==> long[n - 1] == events[n - 1]);
    if InLanguage(long, request, cancelSent) {
      assert Fits(long, n, request, cancelSent);
      forall i | 0 <= i < n ensures Fits(short, i, request, cancelSent) { assert Fits(long, i, request, cancelSent); }
    }
    if InLanguage(short, request, cancelSent) && Fits(events, n, request, cancelSent) {
      forall i | 0 <= i < n + 1 ensures Fits(long, i, request, cancelSent) {
        if i < n { assert Fits(short, i, request, cancelSent); }
      }
    }
  }

  // ---------------------------------------------------------------- the running system

  /** Where the main thread is. `Bound` has read and validated the request. `Failing` has caught an
      exception; `Erring` has chosen the code to send and does not have the lock yet. */
  datatype Main = Start | Reading | Bound | Executing | Failing(code: Code) | Erring(code: Code) | Exited(status: nat)

  /** A line from the client: a cancel for some identity, or a line that does not validate. */
  datatype Message = CancelFor(ids: Ids) | Invalid(code: Code)

  datatype ControlThread = NotStarted | Waiting | Holding(message: Message) | Ended

  /** The state shared under the worker's lock, the two threads, the pipes, and the client. */
  datatype System = System(
    profile: nat,
    main: Main, control: ControlThread,
    ids: Option<Ids>, sequence: nat, terminal: bool, controlError: Option<Code>, cancelled: bool,
    log: seq<Event>,
    inbox: seq<Message>,
    consumed: nat, view: View, raised: Option<Code>)

  datatype Step =
    | SendHello
    | RequestUnreadable(code: Code) | RequestRead | RequestRefused(code: Code) | SendAccepted
    | SendProgress | Finish | ExecuteFails(code: Code) | ChooseCode | SendError
    | ControlReads | ControlActs
    | MarkCancel | WriteCancel | WriteOther(message: Message)
    | ClientAccepts

  function Initial(profile: nat): System {
    System(profile, Start, NotStarted, None, 0, false, None, false, [], [], 0, Fresh(false), None)
  }

  /** `emit`: nothing after a terminal event. */
  function Emit(s: System, body: Body): System {
    if s.terminal then s
    else s.(log := s.log + [Event(s.sequence, s.ids, body)], sequence := s.sequence + 1, terminal := Terminal(body))
  }

  /** What the control thread does with a line once it has the lock. */
  function ControlActsOn(s: System, message: Message): System {
    if s.terminal then s.(control := Ended)
    else if message.CancelFor? && Some(message.ids) == s.ids then
      Emit(s.(cancelled := true, control := Waiting), CancelAcknowledged)
    else
      var code := if message.Invalid? then message.code else IdMismatch;
      s.(control := Ended, cancelled := true, controlError := if s.controlError.Some? then s.controlError else Some(code))
  }

  /** The end of `execute`, in one critical section: a control error wins over completion. */
  function FinishExecution(s: System): System {
    if s.controlError.Some? then s.(main := Failing(s.controlError.value)) else Emit(s, Completed).(main := Exited(0))
  }

  ghost predicate Enabled(s: System, request: Request, careful: bool, step: Step) {
    match step
    case SendHello => s.main.Start?
    case RequestUnreadable(code) => s.main.Reading? && PreAccepted(code)
    case RequestRead => s.main.Reading?
    case RequestRefused(_) => s.main.Bound?
    case SendAccepted => s.main.Bound? && s.profile == request.profile
    case SendProgress => s.main.Executing?
    case Finish => s.main.Executing?
    case ExecuteFails(code) => s.main.Executing? && (code.Cancelled? ==> s.cancelled)
    case ChooseCode => s.main.Failing?
    case SendError => s.main.Erring?
    case ControlReads => s.control.Waiting? && s.inbox != []
    case ControlActs => s.control.Holding?
    case MarkCancel => true
    case WriteCancel => careful ==> s.view.cancelSent
    case WriteOther(message) => message != CancelFor(request.ids) && (message.Invalid? ==> PreAccepted(message.code))
    case ClientAccepts => s.consumed < |s.log| && s.raised.None?
  }

  ghost function Apply(s: System, request: Request, step: Step): System
    requires Enabled(s, request, false, step)
  {
    match step
    case SendHello => s.(log := [Event(0, None, Hello(s.profile, [Single, CancelCapability]))], sequence := 1, main := Reading)
    case RequestUnreadable(code) => Emit(s, Error(code)).(main := Exited(1))
    case RequestRead => s.(ids := Some(request.ids), main := Bound)
    case RequestRefused(code) => Emit(s, Error(code)).(main := Exited(1))
    case SendAccepted => Emit(s, Accepted).(main := Executing, control := Waiting)
    case SendProgress => Emit(s, Progress)
    case Finish => FinishExecution(s)
    case ExecuteFails(code) => s.(main := Failing(code))
    case ChooseCode => s.(main := Erring(if s.controlError.Some? then s.controlError.value else s.main.code))
    case SendError => Emit(s, Error(s.main.code)).(main := Exited(1))
    case ControlReads => s.(control := Holding(s.inbox[0]), inbox := s.inbox[1..])
    case ControlActs => ControlActsOn(s, s.control.message)
    case MarkCancel => s.(view := s.view.(cancelSent := true))
    case WriteCancel => s.(inbox := s.inbox + [CancelFor(request.ids)])
    case WriteOther(message) => s.(inbox := s.inbox + [message])
    case ClientAccepts =>
      match Accept(s.view, request, s.log[s.consumed])
      case Continue(v) => s.(view := v, consumed := s.consumed + 1)
      case Raise(code) => s.(raised := Some(code))
  }

  /** A run: every state and the step that leads to the next. A careful client marks a cancel
      before it writes it. */
  ghost predicate Run(states: seq<System>, steps: seq<Step>, request: Request, profile: nat, careful: bool) {
    && |states| == |steps| + 1 && states[0] == Initial(profile)
    && forall i {:trigger steps[i]} | 0 <= i < |steps| ::
         Next(states[i], steps[i], states[i + 1], request, careful)
  }

  ghost predicate Next(s: System, step: Step, t: System, request: Request, careful: bool) {
    Enabled(s, request, careful, step) && t == Apply(s, request, step)
  }

  // ---------------------------------------------------------------- what every state keeps

  ghost predicate Acknowledged(log: seq<Event>) {
    exists i {:trigger log[i]} :: 0 <= i < |log| && log[i].body.CancelAcknowledged?
  }

  /** The worker's own log, whatever the client does: the language apart from the profile. */
  ghost predicate Producing(s: System, request: Request) {
    && s.sequence == |s.log|
    && InLanguage(s.log, request.(profile := s.profile), true)
    && s.terminal == (s.log != [] && Terminal(s.log[|s.log| - 1].body))
    && s.ids == (if s.main.Start? || s.main.Reading? || (s.main.Exited? && |s.log| == 2 && s.log[1].ids.None?) then None else Some(request.ids))
    && match s.main
       case Start => s.log == []
       case Reading => |s.log| == 1
       case Bound => |s.log| == 1
       case Executing => |s.log| >= 2 && !s.terminal
       case Failing(_) => |s.log| >= 2 && !s.terminal
       case Erring(_) => |s.log| >= 2 && !s.terminal
       case Exited(status) =>
         && |s.log| >= 2 && s.terminal
         && (status == 0 <==> s.log[|s.log| - 1].body.Completed?)
  }

  /** A cancelled execution was acknowledged, unless a control error cancelled it. */
  ghost predicate Honest(s: System) {
    && (s.cancelled ==> s.controlError.Some? || Acknowledged(s.log))
    && (s.control.NotStarted? ==> !s.cancelled && s.controlError.None?)
    && (!s.control.NotStarted? ==> |s.log| >= 2 && s.log[1].body.Accepted?)
    && (s.main.Executing? || s.main.Failing? || s.main.Erring? ==> !s.control.NotStarted?)
    && (s.controlError.Some? ==> !s.controlError.value.Cancelled?)
    && (s.main == Failing(Cancelled) ==> s.cancelled)
    && (s.main == Erring(Cancelled) ==> Acknowledged(s.log))
    && (s.main.Exited? && |s.log| > 2 && s.log[|s.log| - 1].body == Error(Cancelled) ==> Acknowledged(s.log))
  }

  /** A line has one of the codes a reader gives, and a careful client's cancel was marked. */
  ghost predicate Expected(m: Message, request: Request, careful: bool, cancelSent: bool) {
    && (m.Invalid? ==> PreAccepted(m.code))
    && (m == CancelFor(request.ids) && careful ==> cancelSent)
  }

  /** What the client has sent and read. */
  ghost predicate Client(s: System, request: Request, careful: bool) {
    && (forall m {:trigger Expected(m, request, careful, s.view.cancelSent)} | m in s.inbox :: Expected(m, request, careful, s.view.cancelSent))
    && (s.control.Holding? ==> Expected(s.control.message, request, careful, s.view.cancelSent))
    && (careful && Acknowledged(s.log) ==> s.view.cancelSent)
    && s.consumed <= |s.log|
    && Tracks(s.view, s.log, s.consumed) && InLanguage(s.log[..s.consumed], request, s.view.cancelSent)
    && (careful && s.profile == request.profile ==> s.raised.None?)
  }

  ghost predicate Kept(s: System, request: Request, careful: bool) {
    Producing(s, request) && Honest(s) && Client(s, request, careful)
  }

  // ---------------------------------------------------------------- every step keeps it

  lemma TracksMore(v: View, events: seq<Event>, n: nat, e: Event)
    requires n <= |events| && Tracks(v, events, n)
    ensures Tracks(v, events + [e], n)
  {
    assert forall i {:trigger events[i]} | 0 <= i < n :: (events + [e])[i] == events[i];
    if v.cancelAcknowledged {
      var i :| 0 <= i < n && events[i].body.CancelAcknowledged?;
      assert (events + [e])[i].body.CancelAcknowledged?;
    }
  }

  lemma LogGrows(log: seq<Event>, e: Event, request: Request)
    requires InLanguage(log, request, true) && Fits(log + [e], |log|, request, true)
    ensures InLanguage(log + [e], request, true)
    ensures Acknowledged(log + [e]) <==> Acknowledged(log) || e.body.CancelAcknowledged?
  {
    assert (log + [e])[..|log|] == log && (log + [e])[..|log| + 1] == log + [e];
    PrefixLanguage(log + [e], |log|, request, true);
    assert (log + [e])[|log|] == e;
    assert forall i {:trigger log[i]} | 0 <= i < |log| :: (log + [e])[i] == log[i];
  }

  lemma EmitKeeps(s: System, request: Request, careful: bool, body: Body)
    requires Kept(s, request, careful) && !s.terminal && s.log != []
    requires |s.log| == 1 ==> body.Accepted? || body.Error?
    requires |s.log| >= 2 ==> body.Progress? || Terminal(body) || body.CancelAcknowledged?
    requires body.Error? && s.ids.None? ==> PreAccepted(body.code)
    requires !body.Error? ==> s.ids.Some?
    requires body.CancelAcknowledged? && careful ==> s.view.cancelSent
    ensures var t := Emit(s, body);
            && t.sequence == |t.log| && InLanguage(t.log, request.(profile := s.profile), true)
            && t.log == s.log + [Event(s.sequence, s.ids, body)] && t.terminal == Terminal(body)
            && (Acknowledged(t.log) <==> Acknowledged(s.log) || body.CancelAcknowledged?)
            && Client(t, request, careful)
  {
    var e := Event(s.sequence, s.ids, body);
    var r := request.(profile := s.profile);
    assert Fits(s.log + [e], |s.log|, r, true) by {
      assert (s.log + [e])[|s.log|] == e && (s.log + [e])[|s.log| - 1] == s.log[|s.log| - 1];
    }
    LogGrows(s.log, e, r);
    TracksMore(s.view, s.log, s.consumed, e);
    assert (s.log + [e])[..s.consumed] == s.log[..s.consumed];
    var t := Emit(s, body);
  }

  lemma AnswerKeeps(s: System, request: Request, careful: bool, step: Step)
    requires Kept(s, request, careful) && Enabled(s, request, careful, step)
    requires step.RequestUnreadable? || step.RequestRefused? || step.SendAccepted?
    ensures Kept(Apply(s, request, step), request, careful)
  {
    assert Fits(s.log, 0, request.(profile := s.profile), true);
    match step
    case RequestUnreadable(code) => EmitKeeps(s, request, careful, Error(code));
    case RequestRefused(code) => EmitKeeps(s, request, careful, Error(code));
    case SendAccepted => EmitKeeps(s, request, careful, Accepted);
    case _ =>
  }

  lemma ExecutionKeeps(s: System, request: Request, careful: bool, step: Step)
    requires Kept(s, request, careful) && Enabled(s, request, careful, step)
    requires step.SendProgress? || step.SendError?
    ensures Kept(Apply(s, request, step), request, careful)
  {
    EmitKeeps(s, request, careful, if step.SendError? then Error(s.main.code) else Progress);
  }

  lemma LocalStepKeeps(s: System, request: Request, careful: bool, step: Step)
    requires Kept(s, request, careful) && Enabled(s, request, careful, step)
    requires step.SendHello? || step.RequestRead? || step.ExecuteFails? || step.Finish? || step.ChooseCode?
    ensures Kept(Apply(s, request, step), request, careful)
  {
    var t := Apply(s, request, step);
    if step.Finish? && s.controlError.None? { EmitKeeps(s, request, careful, Completed); }
    if step.SendHello? {
      assert Fits(t.log, 0, request.(profile := s.profile), true);
    }
  }

  lemma ControlStepKeeps(s: System, request: Request, careful: bool, step: Step)
    requires Kept(s, request, careful) && Enabled(s, request, careful, step)
    requires step.ControlReads? || step.ControlActs?
    ensures Kept(Apply(s, request, step), request, careful)
  {
    var t := Apply(s, request, step);
    if step.ControlReads? {
      assert s.inbox[0] in s.inbox;
      assert Expected(s.inbox[0], request, careful, s.view.cancelSent);
      assert Expected(s.inbox[0], request, careful, t.view.cancelSent);
    } else if !s.terminal {
      var message := s.control.message;
      if message.CancelFor? && Some(message.ids) == s.ids {
        var q := s.(control := Waiting);
        EmitKeeps(q, request, careful, CancelAcknowledged);
      }
    }
  }

  lemma MarkingKeepsLanguage(events: seq<Event>, request: Request, cancelSent: bool)
    requires InLanguage(events, request, cancelSent)
    ensures InLanguage(events, request, true)
  {
    forall i | 0 <= i < |events| ensures Fits(events, i, request, true) { assert Fits(events, i, request, cancelSent); }
  }

  lemma ClientStepKeeps(s: System, request: Request, careful: bool, step: Step)
    requires Kept(s, request, careful) && Enabled(s, request, careful, step)
    requires step.MarkCancel? || step.WriteCancel? || step.WriteOther?
    ensures Kept(Apply(s, request, step), request, careful)
  {
    var t := Apply(s, request, step);
    forall m | m in t.inbox ensures Expected(m, request, careful, t.view.cancelSent) {
      if m in s.inbox { assert Expected(m, request, careful, s.view.cancelSent); }
    }
    MarkingKeepsLanguage(s.log[..s.consumed], request, s.view.cancelSent);
    if s.control.Holding? { assert Expected(s.control.message, request, careful, t.view.cancelSent); }
  }

  lemma ReadStepKeeps(s: System, request: Request, careful: bool)
    requires Kept(s, request, careful) && Enabled(s, request, careful, ClientAccepts)
    ensures Kept(Apply(s, request, ClientAccepts), request, careful)
  {
    var t := Apply(s, request, ClientAccepts);
    var n := s.consumed;
    AcceptStep(s.view, s.log, n, request);
    PrefixLanguage(s.log, n, request, s.view.cancelSent);
    if careful && s.profile == request.profile { UnreadFits(s, request, careful); }
  }

  /** What the client has not read yet fits, when the profiles agree and the client is careful. */
  lemma UnreadFits(s: System, request: Request, careful: bool)
    requires Kept(s, request, careful) && s.consumed < |s.log| && careful && s.profile == request.profile
    ensures Fits(s.log, s.consumed, request, s.view.cancelSent)
  {
    assert Fits(s.log, s.consumed, request.(profile := s.profile), true);
    assert request.(profile := s.profile) == request;
    if s.log[s.consumed].body.CancelAcknowledged? { assert Acknowledged(s.log); }
  }

  lemma StepKeeps(s: System, request: Request, careful: bool, step: Step)
    requires Kept(s, request, careful) && Enabled(s, request, careful, step)
    ensures Kept(Apply(s, request, step), request, careful)
  {
    match step
    case RequestUnreadable(_) => AnswerKeeps(s, request, careful, step);
    case RequestRefused(_) => AnswerKeeps(s, request, careful, step);
    case SendAccepted => AnswerKeeps(s, request, careful, step);
    case SendProgress => ExecutionKeeps(s, request, careful, step);
    case SendError => ExecutionKeeps(s, request, careful, step);
    case SendHello => LocalStepKeeps(s, request, careful, step);
    case RequestRead => LocalStepKeeps(s, request, careful, step);
    case ExecuteFails(_) => LocalStepKeeps(s, request, careful, step);
    case Finish => LocalStepKeeps(s, request, careful, step);
    case ChooseCode => LocalStepKeeps(s, request, careful, step);
    case ControlReads => ControlStepKeeps(s, request, careful, step);
    case ControlActs => ControlStepKeeps(s, request, careful, step);
    case MarkCancel => ClientStepKeeps(s, request, careful, step);
    case WriteCancel => ClientStepKeeps(s, request, careful, step);
    case WriteOther(_) => ClientStepKeeps(s, request, careful, step);
    case ClientAccepts => ReadStepKeeps(s, request, careful);
  }

  lemma NextKeeps(s: System, step: Step, t: System, request: Request, careful: bool)
    requires Kept(s, request, careful) && Next(s, step, t, request, careful)
    ensures Kept(t, request, careful) && t.profile == s.profile
  {
    StepKeeps(s, request, careful, step);
    StepKeepsProfile(s, request, step);
  }

  lemma StepKeepsProfile(s: System, request: Request, step: Step)
    requires Enabled(s, request, false, step)
    ensures Apply(s, request, step).profile == s.profile
  {
  }

  lemma InitiallyKept(request: Request, profile: nat, careful: bool)
    ensures Kept(Initial(profile), request, careful)
  {
  }

  lemma {:induction false} RunKeeps(states: seq<System>, steps: seq<Step>, request: Request, profile: nat, careful: bool, n: nat)
    requires Run(states, steps, request, profile, careful) && n < |states|
    ensures Kept(states[n], request, careful) && states[n].profile == profile
  {
    if n == 0 {
      InitiallyKept(request, profile, careful);
    } else {
      RunKeeps(states, steps, request, profile, careful, n - 1);
      NextKeeps(states[n - 1], steps[n - 1], states[n], request, careful);
    }
  }

  // ---------------------------------------------------------------- the protocol

  /** Every state of every interleaving: what the worker has written is a stream of the protocol
      with consecutive numbers, up to its own profile. Once it has exited, the stream is hello
      and one error, or hello, accepted, progress and acknowledgements, and one terminal event,
      which is a completion exactly when the exit status is zero. A cancelled ending comes after
      an acknowledgement. */
  lemma WorkerSpeaksTheProtocol(states: seq<System>, steps: seq<Step>, request: Request, profile: nat, careful: bool, n: nat)
    requires Run(states, steps, request, profile, careful) && n < |states|
    ensures InLanguage(states[n].log, request.(profile := profile), true)
    ensures states[n].main.Exited? ==>
              var log := states[n].log;
              && |log| >= 2 && Terminal(log[|log| - 1].body)
              && (forall i | 0 <= i < |log| - 1 :: !Terminal(log[i].body))
              && (log[1].body.Error? <==> |log| == 2)
              && (states[n].main.status == 0 <==> log[|log| - 1].body.Completed?)
              && (|log| > 2 && log[|log| - 1].body == Error(Cancelled) ==> Acknowledged(log))
  {
    RunKeeps(states, steps, request, profile, careful, n);
    var log := states[n].log;
    if states[n].main.Exited? {
      forall i | 0 <= i < |log| - 1 ensures !Terminal(log[i].body) {
        assert Fits(log, i + 1, request.(profile := profile), true);
      }
      assert Fits(log, 1, request.(profile := profile), true);
    }
  }

  // ---------------------------------------------------------------- how the worker ends

  /** The stream's last event. */
  ghost predicate EndsWith(s: System, body: Body) {
    s.log != [] && s.log[|s.log| - 1].body == body
  }

  /** What the control thread does with a line: it acknowledges a cancel for the worker's ids and
      waits for more; at anything else it ends, cancels the execution and records the line's code,
      a mismatch for a cancel with other ids, unless one is recorded. After a terminal event it
      does nothing but end. */
  lemma ControlEffect(s: System, request: Request)
    requires s.control.Holding?
    ensures var message, t := s.control.message, Apply(s, request, ControlActs);
            if s.terminal then t == s.(control := Ended)
            else if s.ids.Some? && message == CancelFor(s.ids.value) then
              t == s.(control := Waiting, cancelled := true, sequence := s.sequence + 1,
                      log := s.log + [Event(s.sequence, s.ids, CancelAcknowledged)])
            else
              && t == s.(control := Ended, cancelled := true, controlError := t.controlError)
              && t.controlError == if s.controlError.Some? then s.controlError
                                   else if message.Invalid? then Some(message.code) else Some(IdMismatch)
  {
  }

  /** From a recorded control error on: the code is kept, and the worker ends with it. */
  ghost predicate Doomed(s: System, code: Code) {
    && s.controlError == Some(code)
    && (|| s.main.Executing? || s.main.Failing? || s.main == Erring(code)
        || (s.main == Exited(1) && EndsWith(s, Error(code))))
  }

  lemma DoomedStays(s: System, step: Step, t: System, request: Request, careful: bool, code: Code)
    requires Kept(s, request, careful) && Next(s, step, t, request, careful) && Doomed(s, code)
    ensures Doomed(t, code)
  {
  }

  /** A control error that is recorded before the code is chosen decides the end: the first code
      stays, and once the worker has exited its status is one and its last event an error with
      exactly that code. */
  lemma {:induction false} ControlErrorDecides(states: seq<System>, steps: seq<Step>, request: Request, profile: nat,
                                               careful: bool, m: nat, n: nat, code: Code)
    requires Run(states, steps, request, profile, careful) && m <= n < |states|
    requires states[m].controlError == Some(code) && (states[m].main.Executing? || states[m].main.Failing?)
    ensures Doomed(states[n], code)
    ensures states[n].main.Exited? ==> states[n].main.status == 1 && EndsWith(states[n], Error(code))
  {
    if m < n {
      ControlErrorDecides(states, steps, request, profile, careful, m, n - 1, code);
      RunKeeps(states, steps, request, profile, careful, n - 1);
      assert Next(states[n - 1], steps[n - 1], states[n], request, careful);
      DoomedStays(states[n - 1], steps[n - 1], states[n], request, careful, code);
    }
  }

  /** Completed, in the log and as exit status alike, without a control error. */
  ghost predicate Clean(s: System) {
    EndsWith(s, Completed) || s.main == Exited(0) ==>
      s.controlError.None? && s.main == Exited(0) && EndsWith(s, Completed)
  }

  lemma CleanStays(s: System, step: Step, t: System, request: Request, careful: bool)
    requires Kept(s, request, careful) && Next(s, step, t, request, careful) && Clean(s)
    ensures Clean(t)
  {
    match step
    case ControlActs => CleanAfterControl(s, t, request, careful);
    case Finish => FinishEffect(s, request, careful);
    case ClientAccepts => assert t == s.(view := t.view, consumed := t.consumed, raised := t.raised);
    case _ => CleanElsewhere(s, step, t, request, careful);
  }

  lemma CleanAfterControl(s: System, t: System, request: Request, careful: bool)
    requires Kept(s, request, careful) && Next(s, ControlActs, t, request, careful) && Clean(s)
    ensures Clean(t)
  {
    ControlEffect(s, request);
  }

  lemma CleanElsewhere(s: System, step: Step, t: System, request: Request, careful: bool)
    requires Kept(s, request, careful) && Next(s, step, t, request, careful) && Clean(s)
    requires !step.ControlActs? && !step.Finish? && !step.ClientAccepts?
    ensures Clean(t)
  {
  }

  /** A completed stream, or exit status zero, means that no control error was ever recorded. */
  lemma {:induction false} CompletedWithoutControlError(states: seq<System>, steps: seq<Step>, request: Request, profile: nat,
                                                        careful: bool, n: nat)
    requires Run(states, steps, request, profile, careful) && n < |states|
    ensures EndsWith(states[n], Completed) <==> states[n].main == Exited(0)
    ensures states[n].main == Exited(0) ==> states[n].controlError.None?
  {
    RunIsClean(states, steps, request, profile, careful, n);
  }

  lemma {:induction false} RunIsClean(states: seq<System>, steps: seq<Step>, request: Request, profile: nat, careful: bool, n: nat)
    requires Run(states, steps, request, profile, careful) && n < |states|
    ensures Clean(states[n])
  {
    if n > 0 {
      RunIsClean(states, steps, request, profile, careful, n - 1);
      RunKeeps(states, steps, request, profile, careful, n - 1);
      assert Next(states[n - 1], steps[n - 1], states[n], request, careful);
      CleanStays(states[n - 1], steps[n - 1], states[n], request, careful);
    }
  }

  /** A failing execution ends with its own code if no control error is recorded when the code is
      chosen, and with the first control error otherwise, whatever is recorded after that. */
  lemma {:induction false} ChosenCodeIsSent(states: seq<System>, steps: seq<Step>, request: Request, profile: nat,
                                            careful: bool, m: nat, n: nat)
    requires Run(states, steps, request, profile, careful) && m < n < |states| && steps[m].ChooseCode?
    ensures states[m].main.Failing?
    ensures var code := if states[m].controlError.Some? then states[m].controlError.value else states[m].main.code;
            states[n].main == Erring(code) || (states[n].main == Exited(1) && EndsWith(states[n], Error(code)))
  {
    assert Next(states[m], steps[m], states[m + 1], request, careful);
    if m + 1 < n {
      ChosenCodeIsSent(states, steps, request, profile, careful, m, n - 1);
      RunKeeps(states, steps, request, profile, careful, n - 1);
      assert Next(states[n - 1], steps[n - 1], states[n], request, careful);
    }
  }

  /** An execution that returns completes the stream with status zero exactly if no control error
      is recorded, and otherwise fails with the first one. */
  lemma FinishEffect(s: System, request: Request, careful: bool)
    requires Kept(s, request, careful) && s.main.Executing?
    ensures var t := Apply(s, request, Finish);
            if s.controlError.None?
            then t == s.(log := s.log + [Event(s.sequence, s.ids, Completed)], sequence := s.sequence + 1, terminal := true, main := Exited(0))
            else t == s.(main := Failing(s.controlError.value))
  {
  }

  // ---------------------------------------------------------------- acknowledgements

  ghost function Acknowledgements(log: seq<Event>): nat {
    if log == [] then 0
    else Acknowledgements(log[..|log| - 1]) + if log[|log| - 1].body.CancelAcknowledged? then 1 else 0
  }

  ghost function Cancels(inbox: seq<Message>, ids: Ids): nat {
    if inbox == [] then 0
    else Cancels(inbox[..|inbox| - 1], ids) + if inbox[|inbox| - 1] == CancelFor(ids) then 1 else 0
  }

  ghost function Written(steps: seq<Step>, n: nat): nat
    requires n <= |steps|
  {
    if n == 0 then 0 else Written(steps, n - 1) + if steps[n - 1].WriteCancel? then 1 else 0
  }

  lemma {:induction false} FirstCancel(inbox: seq<Message>, ids: Ids)
    requires inbox != []
    ensures Cancels(inbox, ids) == Cancels(inbox[1..], ids) + if inbox[0] == CancelFor(ids) then 1 else 0
  {
    var last := |inbox| - 1;
    if last > 0 {
      FirstCancel(inbox[..last], ids);
      assert inbox[1..][..last - 1] == inbox[..last][1..];
    } else {
      assert inbox[..0] == [] && inbox[1..] == [];
    }
  }

  /** Cancels that were written and not yet answered or dropped. */
  ghost function Pending(s: System, ids: Ids): nat {
    Cancels(s.inbox, ids) + if s.control == Holding(CancelFor(ids)) then 1 else 0
  }

  lemma PendingStep(s: System, step: Step, t: System, request: Request, careful: bool)
    requires Kept(s, request, careful) && Next(s, step, t, request, careful)
    ensures Acknowledgements(t.log) + Pending(t, request.ids)
         <= Acknowledgements(s.log) + Pending(s, request.ids) + if step.WriteCancel? then 1 else 0
  {
    if step.ControlReads? {
      FirstCancel(s.inbox, request.ids);
    } else {
      OneMoreEvent(s, step, t, request, careful);
      OneMoreMessage(s, step, t, request);
    }
  }

  lemma OneMoreEvent(s: System, step: Step, t: System, request: Request, careful: bool)
    requires Kept(s, request, careful) && Next(s, step, t, request, careful)
    ensures Acknowledgements(t.log) <= Acknowledgements(s.log) +
              if step.ControlActs? && s.control == Holding(CancelFor(request.ids)) then 1 else 0
  {
    if step.ControlActs? { ControlEffect(s, request); }
    if t.log != s.log { LastEvent(s, step, t, request); }
  }

  /** A step writes one event at most, and only the control thread an acknowledgement. */
  lemma LastEvent(s: System, step: Step, t: System, request: Request)
    requires Enabled(s, request, false, step) && t == Apply(s, request, step) && t.log != s.log && (s.main.Start? ==> s.log == [])
    ensures t.log != [] && t.log[..|t.log| - 1] == s.log
    ensures t.log[|t.log| - 1].body.CancelAcknowledged? ==> step.ControlActs?
  {
  }

  lemma OneMoreMessage(s: System, step: Step, t: System, request: Request)
    requires Enabled(s, request, false, step) && t == Apply(s, request, step) && !step.ControlReads?
    ensures Cancels(t.inbox, request.ids) <= Cancels(s.inbox, request.ids) + if step.WriteCancel? then 1 else 0
    ensures step.ControlActs? ==> !t.control.Holding?
    ensures !step.ControlActs? && t.control.Holding? ==> t.control == s.control
  {
    if t.inbox != s.inbox { assert t.inbox[..|t.inbox| - 1] == s.inbox; }
  }

  /** Every acknowledgement answers a cancel that the client wrote for this request, one each. */
  lemma {:induction false} AcknowledgementsAnswerCancels(states: seq<System>, steps: seq<Step>, request: Request, profile: nat,
                                                         careful: bool, n: nat)
    requires Run(states, steps, request, profile, careful) && n < |states|
    ensures Acknowledgements(states[n].log) + Pending(states[n], request.ids) <= Written(steps, n)
  {
    if n > 0 {
      AcknowledgementsAnswerCancels(states, steps, request, profile, careful, n - 1);
      RunKeeps(states, steps, request, profile, careful, n - 1);
      assert Next(states[n - 1], steps[n - 1], states[n], request, careful);
      PendingStep(states[n - 1], steps[n - 1], states[n], request, careful);
    }
  }

  /** With a matching profile and a client that marks a cancel before writing it, `accept`
      never raises, and a client that has read everything knows how the worker ended. */
  lemma CarefulClientNeverRaises(states: seq<System>, steps: seq<Step>, request: Request, profile: nat, n: nat)
    requires Run(states, steps, request, profile, true) && n < |states| && profile == request.profile
    ensures states[n].raised.None?
    ensures states[n].main.Exited? && states[n].consumed == |states[n].log| ==>
              && states[n].log != [] && states[n].view.terminal == Some(states[n].log[|states[n].log| - 1].body)
              && (states[n].view.terminal == Some(Error(Cancelled)) && states[n].view.accepted ==> states[n].view.cancelSent)
  {
    RunKeeps(states, steps, request, profile, true, n);
    WorkerSpeaksTheProtocol(states, steps, request, profile, true, n);
  }

  lemma ExtendRun(states: seq<System>, steps: seq<Step>, request: Request, profile: nat, careful: bool, step: Step)
    requires Run(states, steps, request, profile, careful) && Enabled(states[|states| - 1], request, careful, step)
    ensures Run(states + [Apply(states[|states| - 1], request, step)], steps + [step], request, profile, careful)
  {
  }

  /** The client's view once it has read hello. */
  function Greeted(): View {
    View(1, false, None, false, false)
  }

  /** The client reads hello, sends its request, and the worker accepts it. */
  lemma AcceptedRun(request: Request) returns (states: seq<System>, steps: seq<Step>)
    ensures Run(states, steps, request, request.profile, false) && steps == [SendHello, ClientAccepts, RequestRead, SendAccepted]
    ensures var s := states[|states| - 1];
            s == Initial(request.profile).(
              main := Executing, control := Waiting, ids := Some(request.ids), sequence := 2, consumed := 1, view := Greeted(),
              log := [Event(0, None, Hello(request.profile, [Single, CancelCapability])), Event(1, Some(request.ids), Accepted)])
  {
    var s0 := Initial(request.profile);
    var s1 := Apply(s0, request, SendHello);
    ReadHello(s1, request);
    var s2 := s1.(consumed := 1, view := Greeted());
    var s3 := Apply(s2, request, RequestRead);
    states := [s0, s1, s2, s3, Apply(s3, request, SendAccepted)];
    steps := [SendHello, ClientAccepts, RequestRead, SendAccepted];
  }

  /** A client that then writes a cancel without marking it gets an acknowledgement all the same. */
  lemma UnmarkedCancelRun(request: Request) returns (states: seq<System>, steps: seq<Step>)
    ensures Run(states, steps, request, request.profile, false)
    ensures steps == [SendHello, ClientAccepts, RequestRead, SendAccepted, WriteCancel, ControlReads, ControlActs]
    ensures var s := states[|states| - 1];
            s.consumed == 1 && s.view == Greeted() && s.raised.None?
            && s.log == [Event(0, None, Hello(request.profile, [Single, CancelCapability])), Event(1, Some(request.ids), Accepted),
                         Event(2, Some(request.ids), CancelAcknowledged)]
  {
    states, steps := AcceptedRun(request);
    var s4 := states[|states| - 1];
    ExtendRun(states, steps, request, request.profile, false, WriteCancel);
    var s5 := Apply(s4, request, WriteCancel);
    states, steps := states + [s5], steps + [WriteCancel];
    ExtendRun(states, steps, request, request.profile, false, ControlReads);
    var s6 := Apply(s5, request, ControlReads);
    states, steps := states + [s6], steps + [ControlReads];
    ExtendRun(states, steps, request, request.profile, false, ControlActs);
    states, steps := states + [Apply(s6, request, ControlActs)], steps + [ControlActs];
  }

  lemma ReadHello(s: System, request: Request)
    requires s.consumed == 0 && s.view == Fresh(false) && s.raised.None?
    requires s.log == [Event(0, None, Hello(request.profile, [Single, CancelCapability]))]
    ensures Apply(s, request, ClientAccepts) == s.(consumed := 1, view := Greeted())
  {
    CapabilitySet([Single, CancelCapability]);
  }

  lemma ReadAcceptedAndRaise(s: System, request: Request)
    requires s.consumed == 1 && s.view == Greeted() && s.raised.None?
    requires s.log == [Event(0, None, Hello(request.profile, [Single, CancelCapability])), Event(1, Some(request.ids), Accepted),
                       Event(2, Some(request.ids), CancelAcknowledged)]
    ensures var t := Apply(s, request, ClientAccepts);
            t == s.(consumed := 2, view := View(2, true, None, false, false))
            && Apply(t, request, ClientAccepts).raised == Some(InvalidSequence)
  {
  }

  /** Both conditions are needed: without either there is an interleaving in which it raises. */
  lemma OtherwiseSomeRunRaises(request: Request, profile: nat, careful: bool) returns (states: seq<System>, steps: seq<Step>)
    requires !careful || profile != request.profile
    ensures Run(states, steps, request, profile, careful) && states[|states| - 1].raised.Some?
  {
    if profile != request.profile {
      var s1 := Apply(Initial(profile), request, SendHello);
      steps := [SendHello, ClientAccepts];
      states := [Initial(profile), s1, Apply(s1, request, ClientAccepts)];
    } else {
      states, steps := UnmarkedCancelRun(request);
      var s := states[|states| - 1];
      ReadAcceptedAndRaise(s, request);
      ExtendRun(states, steps, request, profile, careful, ClientAccepts);
      var t := Apply(s, request, ClientAccepts);
      states, steps := states + [t], steps + [ClientAccepts];
      ExtendRun(states, steps, request, profile, careful, ClientAccepts);
      states, steps := states + [Apply(t, request, ClientAccepts)], steps + [ClientAccepts];
    }
  }
}
