/** The client handshake of node.c: three requests, each sent after the one before it was
    answered, with the object type accepted before the client connects. */
module Handshake {
  import opened Base

  datatype Phase =
    | Init | SocketConnected | CreateSent | CreateCompleted | TypeSent | TypeCompleted
    | ConnectSent | ConnectCompleted | Completed | Failed | InvalidType

  const STREAM_OP: u16 := 1
  const STREAM_OP_RET: u16 := 2
  const OBJECT_TYPE_NAME: u16 := 103
  const OBJECT_TYPE_NAME_RET: u16 := 104
  const CONNECT_CLIENT: u16 := 107
  const CONNECT_CLIENT_RET: u16 := 108

  /** What the handshake is called with. A message carries its entry type, its request id and
      what the type check would say about it. */
  datatype Notice =
    | NextCycle | Elsewhere | ConnectionClosed | ConnectionFailed | TimedOut | HeartbeatTimedOut
    | ConnectedNotice | SendCompleted | ClientSocketConnected
    | Message(entryType: u16, requestId: u32, typeAccepted: bool)

  /** What happens around the call: the verdict of the special request handling on a message,
      and, if a request is sent, the outcome and the request id drawn for it. */
  datatype Around = Around(special: Status, sendRv: Status, drawnId: u32)

  /** The history since the last socket-connected event. */
  datatype Trace = Sent(request: u16, id: u32) | Answered(reply: u16, id: u32, accepted: bool)

  /** closes counts how often the close of the connection was asked for. */
  datatype Client = Client(phase: Phase, requestId: u32, closes: nat, trace: seq<Trace>)

  // ---- one call ----

  function HandshakeError(c: Client): (Status, Client) {
    (Retry, c.(phase := Failed, closes := c.closes + 1))
  }

  function HandleError(c: Client, rv: Status): (Status, Client) {
    if rv == Retry then (Retry, c) else HandshakeError(c)
  }

  /** Send a request and move to the phase that waits for its answer. */
  function SendRequest(c: Client, request: u16, next: Phase, around: Around): (Status, Client) {
    var d := c.(requestId := around.drawnId);
    if around.sendRv != Success then HandleError(d, around.sendRv)
    else (Retry, d.(phase := next, trace := d.trace + [Sent(request, around.drawnId)]))
  }

  /** The second half of a call: whatever the phase asks for next. */
  function Proceed(c: Client, around: Around): (Status, Client) {
    match c.phase
    case Init => SendRequest(c, STREAM_OP, CreateSent, around)
    case CreateSent => (Retry, c)
    case CreateCompleted => SendRequest(c, OBJECT_TYPE_NAME, TypeSent, around)
    case TypeSent => (Retry, c)
    case TypeCompleted => SendRequest(c, CONNECT_CLIENT, ConnectSent, around)
    case ConnectSent => (Retry, c)
    case ConnectCompleted => (Success, c.(phase := Completed))
    case _ => HandshakeError(c)
  }

  function Answer(c: Client, m: Notice, next: Phase): Client
    requires m.Message?
  {
    c.(phase := next, trace := c.trace + [Answered(m.entryType, m.requestId, next != InvalidType)])
  }

  /** A message in one of the waiting phases. */
  function Receive(c: Client, m: Notice, around: Around): (Status, Client)
    requires m.Message?
  {
    match c.phase
    case CreateSent =>
      if m.entryType != STREAM_OP_RET then HandshakeError(c) else Proceed(Answer(c, m, CreateCompleted), around)
    case TypeSent =>
      if m.entryType != OBJECT_TYPE_NAME_RET then HandshakeError(c)
      else Proceed(Answer(c, m, if m.typeAccepted then TypeCompleted else InvalidType), around)
    case ConnectSent =>
      if m.requestId != c.requestId || m.entryType != CONNECT_CLIENT_RET then HandshakeError(c)
      else Proceed(Answer(c, m, ConnectCompleted), around)
    case _ => (UnhandledEvent, c)
  }

  /** client_handshake. Special handling can consume or refuse messages only. */
  function Step(c: Client, n: Notice, around: Around): (Status, Client) {
    if n == Elsewhere then (UnhandledEvent, c)
    else if n.Message? && around.special == Consumed then (Consumed, c)
    else if n.Message? && around.special != Success then HandleError(c, around.special)
    else
      match n
      case NextCycle => Proceed(c, around)
      case ConnectionClosed => (ConnectionError, c.(phase := Failed))
      case ConnectionFailed => HandshakeError(c)
      case TimedOut => HandshakeError(c)
      case ConnectedNotice => Proceed(c, around)
      case SendCompleted => if c.phase in {CreateSent, TypeSent, ConnectSent} then Proceed(c, around)
          else (UnhandledEvent, c)
      case HeartbeatTimedOut => (Retry, c)
      case ClientSocketConnected => Proceed(c.(phase := Init, trace := []), around)
      case Message(_, _, _) => Receive(c, n, around)
      case Elsewhere => (UnhandledEvent, c)
  }

  // ---- safety ----

  /** The one way to completion: each request sent once, in this order, each answered by its
      return type, the type accepted, and the last answer for the last request. */
  ghost predicate Complete(t: seq<Trace>) {
    && |t| == 6
    && t[0].Sent? && t[0].request == STREAM_OP && t[1].Answered? && t[1].reply == STREAM_OP_RET
    && t[2].Sent? && t[2].request == OBJECT_TYPE_NAME && t[3].Answered? && t[3].reply == OBJECT_TYPE_NAME_RET
    && t[3].accepted
    && t[4].Sent? && t[4].request == CONNECT_CLIENT && t[5].Answered? && t[5].reply == CONNECT_CLIENT_RET
    && t[5].id == t[4].id
  }

  /** How far along the phases are. */
  function Progress(p: Phase): nat {
    match p
    case CreateSent => 1
    case CreateCompleted => 2
    case TypeSent => 3
    case TypeCompleted => 4
    case ConnectSent => 5
    case ConnectCompleted => 6
    case Completed => 6
    case _ => 0
  }

  predicate OnTheWay(p: Phase) {
    p != Failed && p != InvalidType && p != SocketConnected
  }

  /** The first n steps of the way to completion. */
  ghost predicate PartOfTheWay(t: seq<Trace>, n: nat) {
    && |t| == n
    && (n > 0 ==> t[0].Sent? && t[0].request == STREAM_OP)
    && (n > 1 ==> t[1].Answered? && t[1].reply == STREAM_OP_RET)
    && (n > 2 ==> t[2].Sent? && t[2].request == OBJECT_TYPE_NAME)
    && (n > 3 ==> t[3].Answered? && t[3].reply == OBJECT_TYPE_NAME_RET && t[3].accepted)
    && (n > 4 ==> t[4].Sent? && t[4].request == CONNECT_CLIENT)
    && (n > 5 ==> t[5].Answered? && t[5].reply == CONNECT_CLIENT_RET && t[5].id == t[4].id)
  }

  ghost predicate Inv(c: Client) {
    && (OnTheWay(c.phase) ==> PartOfTheWay(c.trace, Progress(c.phase)))
    && (c.phase == ConnectSent ==> c.trace[4] == Sent(CONNECT_CLIENT, c.requestId))
  }

  lemma ProceedKeeps(c: Client, around: Around)
    requires Inv(c)
    ensures Inv(Proceed(c, around).1)
  {
  }

  /** An answer that is due is the next step of the way. */
  lemma AnswerKeeps(c: Client, m: Notice, next: Phase)
    requires Inv(c) && m.Message?
    requires || (c.phase == CreateSent && m.entryType == STREAM_OP_RET && next == CreateCompleted)
             || (c.phase == TypeSent && m.entryType == OBJECT_TYPE_NAME_RET && next in {TypeCompleted, InvalidType})
             || (c.phase == ConnectSent && m.entryType == CONNECT_CLIENT_RET && m.requestId == c.requestId
                 && next == ConnectCompleted)
    ensures Inv(Answer(c, m, next))
  {
  }

  lemma FailedKeeps(c: Client)
    ensures Inv(HandshakeError(c).1) && Inv(c.(phase := Failed))
  {
  }

  lemma ReceiveKeeps(c: Client, m: Notice, around: Around)
    requires Inv(c) && m.Message?
    ensures Inv(Receive(c, m, around).1)
  {
    hide Inv, Proceed, Answer, HandshakeError;
    FailedKeeps(c);
    match c.phase
    case CreateSent =>
      if m.entryType == STREAM_OP_RET {
        AnswerKeeps(c, m, CreateCompleted);
        ProceedKeeps(Answer(c, m, CreateCompleted), around);
      }
    case TypeSent =>
      if m.entryType == OBJECT_TYPE_NAME_RET {
        var next := if m.typeAccepted then TypeCompleted else InvalidType;
        AnswerKeeps(c, m, next);
        ProceedKeeps(Answer(c, m, next), around);
      }
    case ConnectSent =>
      if m.requestId == c.requestId && m.entryType == CONNECT_CLIENT_RET {
        AnswerKeeps(c, m, ConnectCompleted);
        ProceedKeeps(Answer(c, m, ConnectCompleted), around);
      }
    case _ =>
  }

  lemma StepKeeps(c: Client, n: Notice, around: Around)
    requires Inv(c)
    ensures Inv(Step(c, n, around).1)
  {
    hide Inv, Proceed, Receive, HandshakeError;
    FailedKeeps(c);
    ProceedKeeps(c, around);
    StartKeeps(c.(phase := Init, trace := []));
    ProceedKeeps(c.(phase := Init, trace := []), around);
    if n.Message? {
      ReceiveKeeps(c, n, around);
    }
  }

  ghost predicate Run(states: seq<Client>, calls: seq<(Notice, Around)>) {
    && |states| == |calls| + 1 && states[0].phase == Init && states[0].trace == []
    && forall i | 0 <= i < |calls| :: states[i + 1] == Step(states[i], calls[i].0, calls[i].1).1
  }

  lemma {:induction false} RunKeeps(states: seq<Client>, calls: seq<(Notice, Around)>, i: nat)
    requires Run(states, calls) && i < |states|
    ensures Inv(states[i])
  {
    hide Step;
    if i > 0 {
      RunKeeps(states, calls, i - 1);
      StepKeeps(states[i - 1], calls[i - 1].0, calls[i - 1].1);
    } else {
      hide PartOfTheWay;
      StartKeeps(states[0]);
    }
  }

  lemma StartKeeps(c: Client)
    requires c.phase == Init && c.trace == []
    ensures Inv(c)
  {
  }

  /** In every run the handshake is complete only when, since the last socket-connected event,
      exactly the three requests were sent in order and properly answered. */
  lemma CompletedOnlyInOrder(states: seq<Client>, calls: seq<(Notice, Around)>, i: nat)
    requires Run(states, calls) && i < |states| && states[i].phase == Completed
    ensures Complete(states[i].trace)
  {
    RunKeeps(states, calls, i);
  }

  /** Success is reported exactly by the call that completes. */
  lemma SuccessMeansCompleted(c: Client, n: Notice, around: Around)
    requires Inv(c)
    ensures Step(c, n, around).0 == Success
        ==> Step(c, n, around).1.phase == Completed && Complete(Step(c, n, around).1.trace)
  {
    StepKeeps(c, n, around);
  }

  lemma ProceedCloses(c: Client, around: Around)
    ensures var (rv, d) := Proceed(c, around);
            && (d.phase == Failed ==> d.closes == c.closes + 1)
            && (d.closes != c.closes ==> d.closes == c.closes + 1 && d.phase == Failed && rv == Retry)
  {
  }

  lemma AnswerCloses(c: Client, m: Notice, around: Around)
    requires m.Message?
    ensures var (rv, d) := Receive(c, m, around);
            && (d.phase == Failed && c.phase != Failed ==> d.closes == c.closes + 1)
            && (d.closes != c.closes ==> d.closes == c.closes + 1 && d.phase == Failed && rv == Retry)
  {
    hide Proceed;
    ProceedCloses(Answer(c, m, CreateCompleted), around);
    ProceedCloses(Answer(c, m, TypeCompleted), around);
    ProceedCloses(Answer(c, m, InvalidType), around);
    ProceedCloses(Answer(c, m, ConnectCompleted), around);
  }

  /** A handshake that fails on an open connection asks for the close in that very call, and
      only a call after which the handshake has failed does. */
  lemma FailureCloses(c: Client, n: Notice, around: Around)
    ensures var (rv, d) := Step(c, n, around);
            && (d.phase == Failed && c.phase != Failed && n != ConnectionClosed ==> d.closes == c.closes + 1)
            && (d.closes != c.closes ==> d.closes == c.closes + 1 && d.phase == Failed && rv == Retry)
  {
    hide Proceed, Receive;
    ProceedCloses(c, around);
    ProceedCloses(c.(phase := Init, trace := []), around);
    if n.Message? {
      AnswerCloses(c, n, around);
    }
  }

  /** A completed or failed handshake does not send anything before the next socket-connected event. */
  lemma OverUntilReconnect(c: Client, n: Notice, around: Around)
    requires c.phase in {Completed, Failed, InvalidType} && n != ClientSocketConnected
    ensures Step(c, n, around).1.trace == c.trace && Step(c, n, around).1.phase in {Completed, Failed, InvalidType}
  {
  }

  // ---- what a call amounts to ----

  /** A request is to be sent next. */
  predicate Due(p: Phase) {
    p == Init || p == CreateCompleted || p == TypeCompleted
  }

  /** A request is sent and not yet answered. */
  predicate Waiting(p: Phase) {
    p == CreateSent || p == TypeSent || p == ConnectSent
  }

  /** The message is the answer that the client waits for; only the last answer is matched by its id. */
  predicate Answers(c: Client, n: Notice) {
    && n.Message?
    && (|| (c.phase == CreateSent && n.entryType == STREAM_OP_RET)
        || (c.phase == TypeSent && n.entryType == OBJECT_TYPE_NAME_RET)
        || (c.phase == ConnectSent && n.entryType == CONNECT_CLIENT_RET && n.requestId == c.requestId))
  }

  /** The calls that go on to what is to be done next. */
  predicate GetsOn(c: Client, n: Notice, special: Status) {
    || n == NextCycle || n == ConnectedNotice || n == ClientSocketConnected
    || (n == SendCompleted && Waiting(c.phase))
    || (special == Success && Answers(c, n))
  }

  /** The client once the notice itself is dealt with: restarted, or with its answer noted. */
  function Noted(c: Client, n: Notice): Client {
    if n == ClientSocketConnected then c.(phase := Init, trace := [])
    else if !Answers(c, n) then c
    else if c.phase == CreateSent then
      c.(phase := CreateCompleted, trace := c.trace + [Answered(STREAM_OP_RET, n.requestId, true)])
    else if c.phase == TypeSent then
      c.(phase := if n.typeAccepted then TypeCompleted else InvalidType,
         trace := c.trace + [Answered(OBJECT_TYPE_NAME_RET, n.requestId, n.typeAccepted)])
    else c.(phase := ConnectCompleted, trace := c.trace + [Answered(CONNECT_CLIENT_RET, n.requestId, true)])
  }

  /** A request that cannot be sent yet, or a message that the special handling wants to see again,
      costs nothing: phase, history and connection stay as the notice left them, to be tried again. */
  lemma RetryWaits(c: Client, n: Notice, around: Around)
    ensures n.Message? && around.special == Retry ==> Step(c, n, around) == (Retry, c)
    ensures GetsOn(c, n, around.special) && Due(Noted(c, n).phase) && around.sendRv == Retry
        ==> Step(c, n, around) == (Retry, Noted(c, n).(requestId := around.drawnId))
  {
  }

  /** A request that is due and accepted is sent, under the id drawn for it. */
  lemma DueIsSent(c: Client, n: Notice, around: Around)
    requires GetsOn(c, n, around.special) && Due(Noted(c, n).phase) && around.sendRv == Success
    ensures var b, (rv, d) := Noted(c, n), Step(c, n, around);
            && rv == Retry && d.requestId == around.drawnId && d.closes == c.closes
            && (b.phase == Init ==> d.phase == CreateSent && d.trace == b.trace + [Sent(STREAM_OP, around.drawnId)])
            && (b.phase == CreateCompleted ==>
                  d.phase == TypeSent && d.trace == b.trace + [Sent(OBJECT_TYPE_NAME, around.drawnId)])
            && (b.phase == TypeCompleted ==>
                  d.phase == ConnectSent && d.trace == b.trace + [Sent(CONNECT_CLIENT, around.drawnId)])
  {
  }

  /** A call fails the handshake and asks for the close if and only if the connection failed or timed
      out, the special handling failed, a message other than the answer came while one is waited for, the
      type was not accepted, a request could not be sent, or the handshake was over already. */
  lemma FailsIff(c: Client, n: Notice, around: Around)
    ensures var p, d := Noted(c, n).phase, Step(c, n, around).1;
            && (d.closes != c.closes <==>
                  || n == ConnectionFailed || n == TimedOut
                  || (n.Message? && around.special !in {Success, Consumed, Retry})
                  || (n.Message? && around.special == Success && Waiting(c.phase) && !Answers(c, n))
                  || (GetsOn(c, n, around.special)
                      && (p in {SocketConnected, InvalidType, Completed, Failed}
                          || (Due(p) && around.sendRv !in {Success, Retry}))))
            && (d.phase == Failed <==>
                  || d.closes != c.closes || n == ConnectionClosed
                  || (c.phase == Failed && !GetsOn(c, n, around.special)))
  {
  }

  /** Every other call: nothing to do but wait, completion by the last answer, or a notice that does not
      concern the handshake. */
  lemma OtherCalls(c: Client, n: Notice, around: Around)
    ensures GetsOn(c, n, around.special) && Waiting(Noted(c, n).phase) ==> Step(c, n, around) == (Retry, Noted(c, n))
    ensures GetsOn(c, n, around.special) && Noted(c, n).phase == ConnectCompleted
        ==> Step(c, n, around) == (Success, Noted(c, n).(phase := Completed))
    ensures n.Message? && around.special == Consumed ==> Step(c, n, around) == (Consumed, c)
    ensures n == HeartbeatTimedOut ==> Step(c, n, around) == (Retry, c)
    ensures n == ConnectionClosed ==> Step(c, n, around) == (ConnectionError, c.(phase := Failed))
    ensures n == Elsewhere || (n == SendCompleted && !Waiting(c.phase))
            || (n.Message? && around.special == Success && !Waiting(c.phase))
        ==> Step(c, n, around) == (UnhandledEvent, c)
  {
  }

  // ---- proper runs ----

  /** A call before the handshake is over that nothing goes wrong in: requests are sent or refused for
      now, and of the messages that get through, one that comes while an answer is waited for is it. */
  predicate Proper(c: Client, n: Notice, around: Around) {
    && (Due(c.phase) || Waiting(c.phase)) && around.sendRv in {Success, Retry}
    && match n
       case Message(_, _, _) =>
         around.special in {Consumed, Retry} || (around.special == Success && (Waiting(c.phase) ==> Answers(c, n)))
       case _ => n !in {ConnectionClosed, ConnectionFailed, TimedOut, ClientSocketConnected}
  }

  predicate TakesAnswer(c: Client, n: Notice, around: Around) {
    around.special == Success && Answers(c, n)
  }

  /** The type check says no. */
  predicate Rejects(c: Client, n: Notice, around: Around) {
    TakesAnswer(c, n, around) && c.phase == TypeSent && !n.typeAccepted
  }

  /** How many of the six steps the call makes: an answer taken, a request sent. */
  function Gain(c: Client, n: Notice, around: Around): nat {
    var answered := if TakesAnswer(c, n, around) then 1 else 0;
    var sent := if Due(Noted(c, n).phase) && around.sendRv == Success then 1 else 0;
    if GetsOn(c, n, around.special) then answered + sent else 0
  }

  function Made(states: seq<Client>, calls: seq<(Notice, Around)>, n: nat): nat
    requires n <= |calls| <= |states|
  {
    if n == 0 then 0 else Made(states, calls, n - 1) + Gain(states[n - 1], calls[n - 1].0, calls[n - 1].1)
  }

  /** From a connected socket on, with any number of refused requests, send-complete notices, heartbeat
      timeouts, consumed messages and events of other connections between the steps. */
  ghost predicate ProperRun(states: seq<Client>, calls: seq<(Notice, Around)>) {
    && |states| == |calls| + 1 && calls != []
    && calls[0].0 == ClientSocketConnected && calls[0].1.sendRv in {Success, Retry}
    && (forall i | 0 < i < |calls| :: Proper(states[i], calls[i].0, calls[i].1))
    && forall i | 0 <= i < |calls| :: states[i + 1] == Step(states[i], calls[i].0, calls[i].1).1
  }

  lemma Starts(c: Client, around: Around)
    requires around.sendRv in {Success, Retry}
    ensures var d := Step(c, ClientSocketConnected, around).1;
            && d.closes == c.closes && (Due(d.phase) || Waiting(d.phase))
            && Progress(d.phase) == Gain(c, ClientSocketConnected, around) < 4
  {
  }

  lemma ProperGains(c: Client, n: Notice, around: Around)
    requires Proper(c, n, around)
    ensures var d := Step(c, n, around).1;
            if Rejects(c, n, around) then d.phase == Failed && d.closes == c.closes + 1
            else
              && d.closes == c.closes && (Due(d.phase) || Waiting(d.phase) || d.phase == Completed)
              && Progress(d.phase) == Progress(c.phase) + Gain(c, n, around)
    ensures Progress(c.phase) < 4 <= Progress(Step(c, n, around).1.phase)
        ==> TakesAnswer(c, n, around) && c.phase == TypeSent && n.typeAccepted
  {
    if n.Message? {
      hide Proceed;
      AnswerGains(c, n, around);
    } else {
      hide Receive;
    }
  }

  /** A proper message is the answer, or is let go. */
  lemma AnswerGains(c: Client, n: Notice, around: Around)
    requires Proper(c, n, around) && n.Message?
    ensures var d := Step(c, n, around).1;
            if Rejects(c, n, around) then d.phase == Failed && d.closes == c.closes + 1
            else
              && d.closes == c.closes && (Due(d.phase) || Waiting(d.phase) || d.phase == Completed)
              && Progress(d.phase) == Progress(c.phase) + Gain(c, n, around)
  {
  }

  lemma CompletedIsSix(p: Phase)
    requires Due(p) || Waiting(p) || p == Completed
    ensures Progress(p) == 6 <==> p == Completed
    ensures Progress(p) <= 6 && p != Failed
  {
  }

  /** What holds after n calls of a proper run. */
  ghost predicate Proceeding(states: seq<Client>, calls: seq<(Notice, Around)>, n: nat)
    requires 0 < n <= |calls| < |states|
  {
    var d := states[n];
    if exists i | 0 < i < n :: Rejects(states[i], calls[i].0, calls[i].1) then
      d.phase == Failed && d.closes == states[0].closes + 1
    else
      && d.closes == states[0].closes && (Due(d.phase) || Waiting(d.phase) || d.phase == Completed)
      && Progress(d.phase) == Made(states, calls, n)
  }

  lemma {:induction false} ProperRunProceeds(states: seq<Client>, calls: seq<(Notice, Around)>, n: nat)
    requires ProperRun(states, calls) && 0 < n <= |calls|
    ensures Proceeding(states, calls, n)
    ensures Progress(states[n].phase) >= 4
        ==> exists i | 0 < i < n :: TypeTaken(states[i], calls[i].0, calls[i].1) && calls[i].0.typeAccepted
  {
    hide Step, Gain, Rejects, Progress, TypeTaken, TakesAnswer;
    var c, a := states[n - 1], calls[n - 1];
    if n == 1 {
      Starts(c, a.1);
      assert Made(states, calls, 1) == Made(states, calls, 0) + Gain(c, a.0, a.1);
    } else {
      ProperRunProceeds(states, calls, n - 1);
      ProperGains(c, a.0, a.1);
      TakenWhenAccepted(c, a.0, a.1);
      FailedIsOver(c.phase);
      assert n - 1 > 0 && Proper(c, a.0, a.1);
    }
  }

  lemma FailedIsOver(p: Phase)
    ensures p == Failed ==> !Due(p) && !Waiting(p)
  {
  }

  /** The answer to the type request is taken. */
  predicate TypeTaken(c: Client, n: Notice, around: Around) {
    c.phase == TypeSent && TakesAnswer(c, n, around)
  }

  lemma TakenWhenAccepted(c: Client, n: Notice, around: Around)
    ensures TakesAnswer(c, n, around) && c.phase == TypeSent ==> TypeTaken(c, n, around)
    ensures Rejects(c, n, around) <==> TypeTaken(c, n, around) && !n.typeAccepted
  {
  }

  lemma RunHasCalls(states: seq<Client>, calls: seq<(Notice, Around)>)
    requires ProperRun(states, calls)
    ensures 0 < |calls| && |states| == |calls| + 1
  {
  }

  lemma CompletedAt(p: Phase)
    ensures p == Completed ==> Progress(p) >= 4
  {
  }

  /** A proper run fails, asking for the close once, exactly when the type is rejected; otherwise it
      is complete exactly when the three requests and the three answers are made, however many calls in
      between were in vain. */
  lemma ProperRunCompletes(states: seq<Client>, calls: seq<(Notice, Around)>)
    requires ProperRun(states, calls)
    ensures var rejected := exists i | 0 < i < |calls| :: Rejects(states[i], calls[i].0, calls[i].1);
            var d := states[|calls|];
            && (d.phase == Failed <==> rejected)
            && d.closes == states[0].closes + (if rejected then 1 else 0)
            && (!rejected ==> Progress(d.phase) == Made(states, calls, |calls|) <= 6)
            && (d.phase == Completed <==> !rejected && Made(states, calls, |calls|) == 6)
  {
    hide Step, Gain, Rejects, Progress, Made, TypeTaken;
    ProperRunProceeds(states, calls, |calls|);
    var d := states[|calls|];
    if d.phase != Failed {
      CompletedIsSix(d.phase);
    } else {
      FailedIsOver(d.phase);
    }
  }

  /** Until it is over a handshake can be completed: whatever happened so far, at most as many proper
      calls as there are steps left do it. */
  lemma {:induction false} CanComplete(c: Client) returns (states: seq<Client>, calls: seq<(Notice, Around)>)
    requires Due(c.phase) || Waiting(c.phase)
    ensures |states| == |calls| + 1 && states[0] == c && |calls| <= 6 - Progress(c.phase)
    ensures forall i | 0 <= i < |calls| ::
              && Proper(states[i], calls[i].0, calls[i].1)
              && states[i + 1] == Step(states[i], calls[i].0, calls[i].1).1
    ensures states[|calls|].phase == Completed && states[|calls|].closes == c.closes
    decreases 6 - Progress(c.phase)
  {
    hide Step, Gain, Rejects, Progress, Proper;
    var n, around := Useful(c), Around(Success, Success, 0);
    UsefulGains(c);
    var d := Step(c, n, around).1;
    if d.phase == Completed {
      states, calls := [c, d], [(n, around)];
    } else {
      var restStates, restCalls := CanComplete(d);
      states, calls := [c] + restStates, [(n, around)] + restCalls;
      assert forall i | 0 < i < |calls| :: states[i] == restStates[i - 1] && calls[i] == restCalls[i - 1];
    }
  }

  /** What gets the handshake on: a cycle to send in, or the answer that is waited for. */
  function Useful(c: Client): Notice {
    if Due(c.phase) then NextCycle
    else
      var reply := if c.phase == CreateSent then STREAM_OP_RET
                   else if c.phase == TypeSent then OBJECT_TYPE_NAME_RET else CONNECT_CLIENT_RET;
      Message(reply, c.requestId, true)
  }

  lemma UsefulGains(c: Client)
    requires Due(c.phase) || Waiting(c.phase)
    ensures var n, around := Useful(c), Around(Success, Success, 0);
            var d := Step(c, n, around).1;
            && Proper(c, n, around) && d.closes == c.closes && Progress(c.phase) < Progress(d.phase) <= 6
            && (Due(d.phase) || Waiting(d.phase) || d.phase == Completed)
  {
  }

  // ---- the client as node.c updates it ----

  class NodeClient {
    var phase: Phase
    var requestId: u32
    ghost var closes: nat
    ghost var trace: seq<Trace>

    constructor ()
      ensures Value() == Client(Init, 0, 0, [])
    {
      phase, requestId, closes, trace := Init, 0, 0, [];
    }

    ghost function Value(): Client
      reads this
    {
      Client(phase, requestId, closes, trace)
    }

    method Fail() returns (rv: Status)
      modifies this
      ensures (rv, Value()) == HandshakeError(old(Value()))
    {
      closes := closes + 1;
      phase := Failed;
      return Retry;
    }

    method FailUnlessRetry(status: Status) returns (rv: Status)
      modifies this
      ensures (rv, Value()) == HandleError(old(Value()), status)
    {
      if status == Retry {
        return Retry;
      }
      rv := Fail();
    }

    method Request(request: u16, next: Phase, around: Around) returns (rv: Status)
      modifies this
      ensures (rv, Value()) == SendRequest(old(Value()), request, next, around)
    {
      requestId := around.drawnId;
      if around.sendRv != Success {
        rv := FailUnlessRetry(around.sendRv);
        return;
      }
      trace := trace + [Sent(request, around.drawnId)];
      phase := next;
      return Retry;
    }

    /** The second switch: what the phase asks for. */
    method Continue(around: Around) returns (rv: Status)
      modifies this
      ensures (rv, Value()) == Proceed(old(Value()), around)
    {
      match phase
      case Init => rv := Request(STREAM_OP, CreateSent, around);
      case CreateCompleted => rv := Request(OBJECT_TYPE_NAME, TypeSent, around);
      case TypeCompleted => rv := Request(CONNECT_CLIENT, ConnectSent, around);
      case ConnectCompleted =>
        phase := Completed;
        rv := Success;
      case CreateSent => rv := Retry;
      case TypeSent => rv := Retry;
      case ConnectSent => rv := Retry;
      case _ => rv := Fail();
    }

    /** The first switch for messages; handled says whether the second switch runs. */
    method TakeMessage(n: Notice) returns (rv: Status, handled: bool)
      requires n.Message?
      modifies this
      ensures forall around: Around :: Receive(old(Value()), n, around) == if handled then Proceed(Value(), around)
          else (rv, Value())
    {
      match phase {
      case CreateSent =>
        if n.entryType != STREAM_OP_RET {
          rv := Fail();
          return rv, false;
        }
        phase := CreateCompleted;
      case TypeSent =>
        if n.entryType != OBJECT_TYPE_NAME_RET {
          rv := Fail();
          return rv, false;
        }
        phase := if n.typeAccepted then TypeCompleted else InvalidType;
      case ConnectSent =>
        if n.requestId != requestId || n.entryType != CONNECT_CLIENT_RET {
          rv := Fail();
          return rv, false;
        }
        phase := ConnectCompleted;
      case _ =>
        return UnhandledEvent, false;
      }
      trace := trace + [Answered(n.entryType, n.requestId, phase != InvalidType)];
      return Success, true;
    }

    method ClientHandshake(n: Notice, around: Around) returns (rv: Status)
      modifies this
      ensures (rv, Value()) == Step(old(Value()), n, around)
    {
      if n == Elsewhere {
        return UnhandledEvent;
      }
      if n.Message? {
        if around.special == Consumed {
          return Consumed;
        }
        if around.special != Success {
          rv := FailUnlessRetry(around.special);
          return;
        }
      }
      match n {
      case ConnectionClosed =>
        phase := Failed;
        return ConnectionError;
      case ConnectionFailed =>
        rv := Fail();
        return;
      case TimedOut =>
        rv := Fail();
        return;
      case HeartbeatTimedOut =>
        return Retry;
      case SendCompleted =>
        if phase !in {CreateSent, TypeSent, ConnectSent} {
          return UnhandledEvent;
        }
      case ClientSocketConnected =>
        phase := Init;
        trace := [];
      case Message(_, _, _) =>
        var handled;
        rv, handled := TakeMessage(n);
        if !handled {
          assert Receive(old(Value()), n, around) == (rv, Value());
          return;
        }
      case _ =>
      }
      rv := Continue(around);
    }
  }
}
