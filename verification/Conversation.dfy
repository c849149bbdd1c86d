/** Two endpoints that talk: an open endpoint can always send again, what it sends arrives, and from a
    fresh connect and accept any exchange of messages can be carried through. */
module Conversation {
  import opened Base
  import opened MessageHeaders
  import opened ScatterGather
  import opened Connection
  import opened Lifecycle
  import opened Delivery
  import opened Progress
  import opened Outcomes

  // ---- continuations ----

  /** Calls of both endpoints, one after the other. */
  ghost predicate Goes(states: seq<System>, steps: seq<(Who, Action)>) {
    && |states| == |steps| + 1
    && forall i | 0 <= i < |steps| :: Next(states[i], steps[i].0, steps[i].1, states[i + 1])
  }

  /** A continuation of s that ends in t. */
  ghost predicate Leads(s: System, states: seq<System>, steps: seq<(Who, Action)>, t: System) {
    Goes(states, steps) && states[0] == s && states[|steps|] == t
  }

  lemma LeadsByOne(s: System, who: Who, a: Action, t: System)
    requires Next(s, who, a, t)
    ensures Leads(s, [s, t], [(who, a)], t)
  {
    hide Next;
  }

  lemma LeadsOn(s: System, states: seq<System>, steps: seq<(Who, Action)>, t: System, moreStates: seq<System>,
          moreSteps: seq<(Who, Action)>, u: System)
    requires Leads(s, states, steps, t) && Leads(t, moreStates, moreSteps, u)
    ensures Leads(s, states + moreStates[1..], steps + moreSteps, u)
  {
    hide Next;
    var all, allSteps := states + moreStates[1..], steps + moreSteps;
    assert forall k | |steps| <= k < |all| :: all[k] == moreStates[k - |steps|];
    assert forall k | |steps| <= k < |allSteps| :: allSteps[k] == moreSteps[k - |steps|];
  }

  function Other(who: Who): Who {
    if who == A then B else A
  }

  function SwapStates(states: seq<System>): (r: seq<System>)
    ensures |r| == |states|
  {
    seq(|states|, i requires 0 <= i < |states| => Swap(states[i]))
  }

  function SwapSteps(steps: seq<(Who, Action)>): (r: seq<(Who, Action)>)
    ensures |r| == |steps|
  {
    seq(|steps|, i requires 0 <= i < |steps| => (Other(steps[i].0), steps[i].1))
  }

  lemma NextSwaps(s: System, who: Who, a: Action, t: System)
    requires Next(s, who, a, t)
    ensures Next(Swap(s), Other(who), a, Swap(t))
  {
    hide Moves;
    assert Swap(Swap(s)) == s && Swap(Swap(t)) == t;
  }

  lemma LeadsSwaps(s: System, states: seq<System>, steps: seq<(Who, Action)>, t: System)
    requires Leads(s, states, steps, t)
    ensures Leads(Swap(s), SwapStates(states), SwapSteps(steps), Swap(t))
  {
    hide Next;
    forall i | 0 <= i < |steps|
      ensures Next(SwapStates(states)[i], SwapSteps(steps)[i].0, SwapSteps(steps)[i].1, SwapStates(states)[i + 1]) {
      NextSwaps(states[i], steps[i].0, steps[i].1, states[i + 1]);
    }
  }

  // ---- sending again ----

  /** How many calls the send buffer is away from being free. */
  function CallsToFree(c: Conn): nat {
    if Unsent(c) then 3 else if MessageSentConsumed in c.flags then 1 else if MessageSent in c.flags then 2 else 0
  }

  /** The next of these calls: send all that is left, consume the event, let the next pass clear it. */
  function FreeingCall(c: Conn): Action
    requires Inv(c)
  {
    InvBounds(c);
    if CallsToFree(c) == 2 then DoConsumeSent else DoSend(Send1(c).1, Success)
  }

  lemma SendsAll(c: Conn)
    requires Inv(c) && Open(c) && Unsent(c)
    ensures Enabled(c, DoSend(Send1(c).1, Success))
    ensures var d := Step(c, DoSend(Send1(c).1, Success));
            MessageSent in d.flags && MessageSentConsumed !in d.flags && !Unsent(d) && Open(d) && SameStanding(c, d)
  {
    InvBounds(c);
    SendOutcome(c, Send1(c).1, Success);
    NotConsumedUnsent(c);
    hide Send, Inv;
  }

  lemma NotConsumedUnsent(c: Conn)
    requires Inv(c) && Unsent(c)
    ensures MessageSentConsumed !in c.flags
  {
  }

  lemma Frees(c: Conn)
    requires Inv(c) && Open(c) && CallsToFree(c) > 0
    ensures Enabled(c, FreeingCall(c))
    ensures var d := Step(c, FreeingCall(c)); CallsToFree(d) < CallsToFree(c) && Open(d) && SameStanding(c, d)
  {
    InvBounds(c);
    if Unsent(c) {
      SendsAll(c);
      hide Send, Inv;
    } else {
      NothingToSend(c, 0, Success);
      hide Inv;
    }
  }

  lemma FreeIsNotBusy(c: Conn)
    requires CallsToFree(c) == 0 && BlockSend !in c.flags
    ensures !Busy(c)
  {
  }

  /** Both ends stand as before and b has not moved; a has sent what is given. */
  predicate OnlySent(s: System, t: System, sent: seq<seq<byte>>) {
    SameStanding(s.a.conn, t.a.conn) && t.b == s.b && t.a.sent == sent && t.a.got == s.a.got
  }

  lemma FreesSystem(s: System) returns (t: System)
    requires SystemInv(s) && Open(s.a.conn) && CallsToFree(s.a.conn) > 0
    ensures Next(s, A, FreeingCall(s.a.conn), t) && OnlySent(s, t, s.a.sent)
    ensures Open(t.a.conn) && CallsToFree(t.a.conn) < CallsToFree(s.a.conn)
  {
    hide Flow, Inv, Open, CallsToFree, Step, Enabled, Emitted, SameStanding;
    Frees(s.a.conn);
    t := MoveOf(s, FreeingCall(s.a.conn));
    HistoryConn(s.a, FreeingCall(s.a.conn));
  }

  lemma {:induction false} BufferFrees(s: System) returns (states: seq<System>, steps: seq<(Who, Action)>, t: System)
    requires SystemInv(s) && Open(s.a.conn)
    ensures Leads(s, states, steps, t) && |steps| <= CallsToFree(s.a.conn)
    ensures SystemInv(t) && OnlySent(s, t, s.a.sent) && Open(t.a.conn) && CallsToFree(t.a.conn) == 0
    decreases CallsToFree(s.a.conn)
  {
    hide SystemInv, Open, CallsToFree, Next, FreeingCall;
    if CallsToFree(s.a.conn) == 0 {
      states, steps, t := [s], [], s;
    } else {
      var u := FreesSystem(s);
      ConnInv(s);
      NextKeeps(s, A, FreeingCall(s.a.conn), u);
      LeadsByOne(s, A, FreeingCall(s.a.conn), u);
      var restStates, restSteps;
      restStates, restSteps, t := BufferFrees(u);
      LeadsOn(s, [s, u], [(A, FreeingCall(s.a.conn))], u, restStates, restSteps, t);
      states, steps := [s, u] + restStates[1..], [(A, FreeingCall(s.a.conn))] + restSteps;
    }
  }

  lemma ConnInv(s: System)
    requires SystemInv(s)
    ensures Inv(s.a.conn) && Inv(s.b.conn)
  {
    hide Inv, Flow;
  }

  lemma PostStands(c: Conn, m: seq<byte>)
    requires Inv(c) && 0 < |m| <= |c.out| && Open(c) && !Busy(c)
    ensures Enabled(c, DoPost(m)) && Ready(c, DoPost(m))
    ensures var d := c.(out := m + c.out[|m|..], sendLen := |m| as u32, flags := c.flags + {SendRequested});
            SameStanding(c, d) && Open(d)
  {
    hide Inv;
  }

  lemma PostGoesOut(s: System, m: seq<byte>) returns (t: System)
    requires SystemInv(s) && Open(s.a.conn) && !Busy(s.a.conn)
    requires IsMessage(m, s.b.conn.recvCap) && |m| <= |s.a.conn.out|
    ensures Next(s, A, DoPost(m), t) && OnlySent(s, t, s.a.sent + [m]) && Open(t.a.conn)
  {
    ConnInv(s);
    LengthIs(m, s.b.conn.recvCap);
    PostStands(s.a.conn, m);
    PostIsSent(s.a, DoPost(m));
    hide Flow, Inv, Open, Busy, Step, Emitted, SameStanding, Ready, History, IsMessage;
    t := MoveOf(s, DoPost(m));
  }

  lemma LengthIs(m: seq<byte>, cap: nat)
    requires IsMessage(m, cap)
    ensures 64 <= |m| <= cap && |m| <= U32_MAX && m[..4] == RRAC
  {
  }

  /** An endpoint that is open and not blocked can always send again: from every state that the two
      endpoints can reach, at most four calls, all its own, end with any message it likes accepted. */
  lemma CanSendAgain(s: System, m: seq<byte>) returns (states: seq<System>, steps: seq<(Who, Action)>, t: System)
    requires SystemInv(s) && Open(s.a.conn) && BlockSend !in s.a.conn.flags
    requires IsMessage(m, s.b.conn.recvCap) && |m| <= |s.a.conn.out|
    ensures Leads(s, states, steps, t) && |steps| <= 4
    ensures SystemInv(t) && OnlySent(s, t, s.a.sent + [m]) && Open(t.a.conn)
  {
    hide SystemInv, Open, Next, IsMessage, Busy;
    var u;
    states, steps, u := BufferFrees(s);
    FreeIsNotBusy(u.a.conn);
    hide CallsToFree;
    t := PostGoesOut(u, m);
    NextKeeps(u, A, DoPost(m), t);
    LeadsByOne(u, A, DoPost(m), t);
    LeadsOn(s, states, steps, u, [u, t], [(A, DoPost(m))], t);
    states, steps := states + [u, t][1..], steps + [(A, DoPost(m))];
  }

  // ---- what is sent arrives ----

  /** Both ends are open, may receive and may send. */
  predicate Talking(s: System) {
    && CanTalk(s.a.conn) && CanTalk(s.b.conn)
  }

  predicate CanTalk(c: Conn) {
    Healthy(c) && !Unopened(c) && Open(c) && BlockSend !in c.flags
  }

  lemma TalkStays(c: Conn, d: Conn)
    requires CanTalk(c) && SameStanding(c, d) && Healthy(d)
    ensures CanTalk(d)
  {
  }

  lemma OpenReceives(c: Conn, d: Conn)
    requires Healthy(c) && !Unopened(c) && SameStanding(c, d) && Healthy(d)
    ensures !Unopened(d)
  {
  }

  lemma OpenIsHealthy(c: Conn)
    requires Open(c)
    ensures Healthy(c)
  {
  }

  /** Everything that a has sent and b has not consumed yet arrives, and then one message more. */
  lemma NextArrives(s: System, m: seq<byte>) returns (states: seq<System>, steps: seq<(Who, Action)>, t: System)
    requires SystemInv(s) && CanDeliver(s) && Open(s.a.conn) && BlockSend !in s.a.conn.flags
    requires IsMessage(m, s.b.conn.recvCap) && |m| <= |s.a.conn.out|
    ensures Leads(s, states, steps, t) && SystemInv(t) && CanDeliver(t)
    ensures SameStanding(s.a.conn, t.a.conn) && SameStanding(s.b.conn, t.b.conn)
    ensures t.a.sent == s.a.sent + [m] == t.b.got && t.a.got == s.a.got && t.b.sent == s.b.sent
  {
    hide SystemInv, Next, IsMessage, Open, Unopened, Healthy;
    var u;
    states, steps, u := CanSendAgain(s, m);
    OpenIsHealthy(u.a.conn);
    hide CanDeliver, SameStanding;
    var more, moreSteps;
    more, moreSteps, t := AllArrives(u);
    LeadsOn(s, states, steps, u, more, moreSteps, t);
    StandingTrans(s.a.conn, u.a.conn, t.a.conn);
    states, steps := states + more[1..], steps + moreSteps;
  }

  lemma AllArrives(s: System) returns (states: seq<System>, steps: seq<(Who, Action)>, t: System)
    requires SystemInv(s) && CanDeliver(s)
    ensures Leads(s, states, steps, t) && SystemInv(t) && CanDeliver(t) && BothStand(s, t)
    ensures t.b.got == t.a.sent
  {
    hide SystemInv, CanDeliver, Next, IsPost, SameStanding;
    states, steps := EverythingArrives(s);
    t := states[|steps|];
    ContinuesLeads(s, states, steps, t);
  }

  lemma LeadsHas(s: System, states: seq<System>, steps: seq<(Who, Action)>, t: System)
    requires Leads(s, states, steps, t)
    ensures |states| == |steps| + 1
  {
    hide Next;
  }

  lemma ContinuesLeads(s: System, states: seq<System>, steps: seq<(Who, Action)>, t: System)
    requires Continues(states, steps) && states[0] == s && states[|steps|] == t
    ensures Leads(s, states, steps, t)
  {
    hide Next;
  }

  lemma StandingTrans(c: Conn, d: Conn, e: Conn)
    requires SameStanding(c, d) && SameStanding(d, e)
    ensures SameStanding(c, e)
  {
  }

  // ---- whole conversations ----

  /** Who says what, in order. */
  type Script = seq<(Who, seq<byte>)>

  function Said(script: Script, who: Who): seq<seq<byte>> {
    if script == [] then []
    else (if script[0].0 == who then [script[0].1] else []) + Said(script[1..], who)
  }

  /** Both buffers of the message's way have room for it, and it is framed as a message. */
  predicate Fits(s: System, who: Who, m: seq<byte>) {
    if who == A then IsMessage(m, s.b.conn.recvCap) && |m| <= |s.a.conn.out|
    else IsMessage(m, s.a.conn.recvCap) && |m| <= |s.b.conn.out|
  }

  /** Everything sent has been consumed, in both directions. */
  predicate Delivered(s: System) {
    s.b.got == s.a.sent && s.a.got == s.b.sent
  }

  predicate SameSizes(s: System, t: System) {
    && t.a.conn.recvCap == s.a.conn.recvCap && t.b.conn.recvCap == s.b.conn.recvCap
    && |t.a.conn.out| == |s.a.conn.out| && |t.b.conn.out| == |s.b.conn.out|
  }

  lemma Arrives(s: System, who: Who, m: seq<byte>) returns (states: seq<System>, steps: seq<(Who, Action)>, t: System)
    requires SystemInv(s) && Talking(s) && Delivered(s) && Fits(s, who, m)
    ensures Leads(s, states, steps, t) && SystemInv(t) && Talking(t) && Delivered(t) && SameSizes(s, t)
    ensures t.a.sent == s.a.sent + (if who == A then [m] else [])
    ensures t.b.sent == s.b.sent + (if who == B then [m] else [])
  {
    hide SystemInv, Next, IsMessage, Open, Unopened, Healthy, Leads;
    if who == A {
      states, steps, t := NextArrives(s, m);
    } else {
      SwapInv(s);
      var u;
      states, steps, u := NextArrives(Swap(s), m);
      LeadsSwaps(Swap(s), states, steps, u);
      SwapInv(u);
      states, steps, t := SwapStates(states), SwapSteps(steps), Swap(u);
    }
    TalkStays(s.a.conn, t.a.conn);
    TalkStays(s.b.conn, t.b.conn);
  }

  /** Two endpoints that are both open can carry through any exchange of messages: after a suitable
      continuation each has consumed exactly what the other said, in order. */
  lemma {:induction false} Converse(s: System, script: Script)
          returns (states: seq<System>, steps: seq<(Who, Action)>, t: System)
    requires SystemInv(s) && Talking(s) && Delivered(s)
    requires forall i | 0 <= i < |script| :: Fits(s, script[i].0, script[i].1)
    ensures Leads(s, states, steps, t) && SystemInv(t) && Talking(t) && Delivered(t)
    ensures t.a.sent == s.a.sent + Said(script, A) && t.b.sent == s.b.sent + Said(script, B)
    decreases script
  {
    hide SystemInv, Next, IsMessage, Talking;
    if script == [] {
      states, steps, t := [s], [], s;
    } else {
      var u;
      var (who, m) := script[0];
      states, steps, u := Arrives(s, who, m);
      forall i | 0 <= i < |script[1..]| ensures Fits(u, script[1..][i].0, script[1..][i].1) {
        assert Fits(s, script[i + 1].0, script[i + 1].1);
      }
      var more, moreSteps;
      more, moreSteps, t := Converse(u, script[1..]);
      LeadsOn(s, states, steps, u, more, moreSteps, t);
      states, steps := states + more[1..], steps + moreSteps;
    }
  }

  // ---- from connect and accept on ----

  /** A client or server that has just been opened. */
  predicate Opening(c: Conn) {
    && c.flags == {Connecting} && c.transport == TCP_TRANSPORT && c.recv == [] && c.recvLen == 0
    && c.sendPos == 0 && c.sendLen == 0 && 1024 < c.recvCap && |c.out| <= U32_MAX
  }

  lemma OpenedIsOpening(x: Side)
    requires OpenedSide(x)
    ensures Opening(x.conn) && x.sent == [] && x.got == []
  {
  }

  /** The client once its socket is connected. */
  function SocketUp(c: Conn): Conn {
    c.(flags := {Connecting, ClientSocketConnected, ReceiveRequested})
  }

  lemma ClientSocketUp(x: Side, incoming: seq<byte>, peerCap: nat)
    requires Inv(x.conn) && Opening(x.conn) && !x.conn.isServer
    ensures Possible(x, incoming, DoControl([], Success), peerCap) && Enabled(x.conn, DoControl([], Success))
    ensures Step(x.conn, DoControl([], Success)) == SocketUp(x.conn)
  {
  }

  lemma SocketUpStays(c: Conn)
    requires Opening(c) && !c.isServer
    ensures var d := SocketUp(c);
            && d == SocketUp(d) && Opening(d.(flags := {Connecting})) && !d.isServer
            && d.recvCap == c.recvCap && d.out == c.out && d.sendPos == 0 == d.sendLen
  {
  }

  lemma HistoryOfControl(x: Side, arrived: seq<byte>, rv: Status)
    requires Inv(x.conn) && Enabled(x.conn, DoControl(arrived, rv))
    ensures History(x, DoControl(arrived, rv)) == Side(Step(x.conn, DoControl(arrived, rv)), x.sent, x.got)
    ensures Emitted(x.conn, DoControl(arrived, rv)) == [] && Taken(DoControl(arrived, rv)) == |arrived|
  {
    hide Inv, Step;
  }

  lemma NothingEmitted(c: Conn, a: Action)
    requires Inv(c) && Enabled(c, a) && !a.DoSend?
    ensures Emitted(c, a) == []
  {
    hide Inv;
  }

  lemma SendPossible(x: Side, incoming: seq<byte>, k: nat, rv: Status, peerCap: nat)
    requires Inv(x.conn) && Enabled(x.conn, DoSend(k, rv))
    ensures Possible(x, incoming, DoSend(k, rv), peerCap)
  {
    hide Inv;
  }

  /** The client that waits for the send event of its first request. */
  predicate RequestOut(c: Conn) {
    c.flags == {Connecting, ClientSocketConnected, ReceiveRequested, MessageSent} && !c.isServer
  }

  lemma ClientRequests(x: Side, m: seq<byte>, incoming: seq<byte>, peerCap: nat)
    requires Inv(x.conn) && Opening(x.conn.(flags := {Connecting})) && x.conn == SocketUp(x.conn) && !x.conn.isServer
    requires IsMessage(m, peerCap) && |m| <= |x.conn.out|
    ensures Possible(x, incoming, DoSpoofedPost(m), peerCap) && Enabled(x.conn, DoSpoofedPost(m))
    ensures History(x, DoSpoofedPost(m)) == Side(x.conn.(out := m + x.conn.out[|m|..], sendLen := |m|,
                flags := {Connecting, ClientSocketConnected, ReceiveRequested, SendRequested}), x.sent + [m], x.got)
  {
    LengthIs(m, peerCap);
    assert Enabled(x.conn, DoSpoofedPost(m)) && Ready(x.conn, DoSpoofedPost(m));
    PostIsSent(x, DoSpoofedPost(m));
    hide Inv, IsMessage, History;
  }

  lemma ClientSends(x: Side, m: seq<byte>)
    requires Inv(x.conn) && x.conn.flags == {Connecting, ClientSocketConnected, ReceiveRequested, SendRequested}
    requires x.conn.sendPos == 0 && x.conn.sendLen == |m| <= |x.conn.out| && x.conn.out[..|m|] == m && !x.conn.isServer
    ensures Enabled(x.conn, DoSend(|m|, Success))
    ensures Emitted(x.conn, DoSend(|m|, Success)) == m
    ensures var y := History(x, DoSend(|m|, Success));
            && y.conn == x.conn.(sendPos := |m|, flags := y.conn.flags) && y.sent == x.sent && y.got == x.got
            && RequestOut(y.conn)
  {
    SendOutcome(x.conn, |m|, Success);
    hide Inv, Send;
  }

  /** The server once it has seen the tag. */
  lemma ServerConnects(x: Side, incoming: seq<byte>, m: seq<byte>, peerCap: nat)
    requires Inv(x.conn) && Opening(x.conn) && x.conn.isServer
    requires m <= incoming && |m| >= 4 && m[..4] == RRAC
    ensures Possible(x, incoming, DoControl(m[..4], Success), peerCap) && Enabled(x.conn, DoControl(m[..4], Success))
    ensures Step(x.conn, DoControl(m[..4], Success)) == x.conn.(flags := {Connected, ReceiveRequested}, recv := m[..4])
  {
    assert [] + m[..4] == m[..4] && m[..4][..4] == m[..4] && m[..4] <= incoming;
  }

  /** A call of endpoint a, as a continuation. */
  lemma Call(s: System, a: Action) returns (t: System)
    requires SystemInv(s) && Possible(s.a, s.ba, a, s.b.conn.recvCap)
    ensures Enabled(s.a.conn, a) && Taken(a) <= |s.ba|
    ensures t == System(History(s.a, a), s.b, s.ab + Emitted(s.a.conn, a), s.ba[Taken(a)..])
    ensures Leads(s, [s, t], [(A, a)], t) && SystemInv(t)
  {
    hide SystemInv, Flow, Inv, Possible, Enabled, History, Emitted, Taken, Next, Leads;
    ConnInv(s);
    t := MoveOf(s, a);
    assert Next(s, A, a, t) by {
      MoveIsNext(s, a, t);
    }
    NextKeeps(s, A, a, t);
    LeadsByOne(s, A, a, t);
  }

  lemma MoveIsNext(s: System, a: Action, t: System)
    requires Moves(s, a, t)
    ensures Next(s, A, a, t)
  {
    hide Moves;
  }

  /** The client's socket connects, it posts its request and sends it whole. */
  lemma ClientGoesFirst(s: System, m: seq<byte>) returns (states: seq<System>, steps: seq<(Who, Action)>, t: System)
    requires SystemInv(s) && Opening(s.a.conn) && !s.a.conn.isServer && s.a.sent == [] && s.ab == []
    requires IsMessage(m, s.b.conn.recvCap) && |m| <= |s.a.conn.out|
    ensures Leads(s, states, steps, t) && |steps| == 3 && SystemInv(t)
    ensures t.b == s.b && t.ab == m && RequestOut(t.a.conn) && t.a.sent == [m] && t.a.got == s.a.got
    ensures t.a.conn.recvCap == s.a.conn.recvCap && |t.a.conn.out| == |s.a.conn.out|
  {
    hide *;
    ConnInv(s);
    LengthIs(m, s.b.conn.recvCap);
    ClientSocketUp(s.a, s.ba, s.b.conn.recvCap);
    var a1, a2, a3 := DoControl([], Success), DoSpoofedPost(m), DoSend(|m|, Success);
    var s1 := Call(s, a1);
    HistoryOfControl(s.a, [], Success);
    SocketUpStays(s.a.conn);
    ConnInv(s1);
    ClientRequests(s1.a, m, s1.ba, s1.b.conn.recvCap);
    var s2 := Call(s1, a2);
    NothingEmitted(s1.a.conn, a2);
    ConnInv(s2);
    ClientSends(s2.a, m);
    SendPossible(s2.a, s2.ba, |m|, Success, s2.b.conn.recvCap);
    t := Call(s2, a3);
    LeadsOn(s, [s, s1], [(A, a1)], s1, [s1, s2], [(A, a2)], s2);
    LeadsOn(s, [s, s1] + [s1, s2][1..], [(A, a1)] + [(A, a2)], s2, [s2, t], [(A, a3)], t);
    states, steps := [s, s1] + [s1, s2][1..] + [s2, t][1..], [(A, a1)] + [(A, a2)] + [(A, a3)];
  }

  /** What the first exchange needs of the two ends. */
  predicate Exchanging(s: System) {
    CanDeliver(s) && CanTalk(s.b.conn) && !s.a.conn.isServer && Connecting in s.a.conn.flags
    && s.a.conn.flags * {ClientSocketConnected, CloseRequested, Idle, BlockSend} == {ClientSocketConnected}
  }

  lemma BothExchange(s: System)
    requires RequestOut(s.a.conn) && s.b.conn.flags == {Connected, ReceiveRequested} && s.b.conn.isServer
    ensures Exchanging(s)
  {
  }

  /** Connect and accept, the request on its way, the tag seen by the server. */
  lemma Opens(s: System, m: seq<byte>) returns (states: seq<System>, steps: seq<(Who, Action)>, t: System)
    requires SystemInv(s) && Opening(s.a.conn) && Opening(s.b.conn) && !s.a.conn.isServer && s.b.conn.isServer
    requires s.a.sent == [] && s.ab == [] && IsMessage(m, s.b.conn.recvCap) && |m| <= |s.a.conn.out|
    ensures Leads(s, states, steps, t) && SystemInv(t) && Exchanging(t) && SameSizes(s, t)
    ensures t.a.sent == [m] && t.a.got == s.a.got && t.b.sent == s.b.sent && t.b.got == s.b.got
  {
    hide *;
    var u;
    states, steps, u := ClientGoesFirst(s, m);
    LengthIs(m, s.b.conn.recvCap);
    SwapIs(u);
    SwapInv(u);
    ConnInv(u);
    ServerConnects(u.b, u.ab, m, u.a.conn.recvCap);
    var v := Call(Swap(u), DoControl(m[..4], Success));
    HistoryOfControl(u.b, m[..4], Success);
    LeadsSwaps(Swap(u), [Swap(u), v], [(A, DoControl(m[..4], Success))], v);
    SwapIs(v);
    SwapInv(v);
    t := Swap(v);
    BothExchange(t);
    SizesAre(s, t);
    LeadsOn(s, states, steps, u, SwapStates([Swap(u), v]), SwapSteps([(A, DoControl(m[..4], Success))]), t);
    states := states + SwapStates([Swap(u), v])[1..];
    steps := steps + SwapSteps([(A, DoControl(m[..4], Success))]);
  }

  lemma SwapIs(s: System)
    ensures Swap(s) == System(s.b, s.a, s.ba, s.ab) && Swap(Swap(s)) == s
  {
  }

  lemma SizesAre(s: System, t: System)
    requires t.a.conn.recvCap == s.a.conn.recvCap && t.b.conn.recvCap == s.b.conn.recvCap
    requires |t.a.conn.out| == |s.a.conn.out| && |t.b.conn.out| == |s.b.conn.out|
    ensures SameSizes(s, t)
  {
  }

  lemma ExchangeStays(s: System, t: System)
    requires Exchanging(s) && SameStanding(s.a.conn, t.a.conn) && SameStanding(s.b.conn, t.b.conn)
    requires Healthy(t.a.conn) && Healthy(t.b.conn)
    ensures Exchanging(t) && SameSizes(s, t)
  {
    assert t.a.conn.flags * {ClientSocketConnected, CloseRequested, Idle, BlockSend}
        == s.a.conn.flags * {ClientSocketConnected, CloseRequested, Idle, BlockSend};
  }

  /** The client that marks itself connected is open from then on. */
  lemma MarksConnected(s: System)
    requires SystemInv(s) && Exchanging(s)
    ensures Inv(s.a.conn) && Possible(s.a, s.ba, DoMarkConnected, s.b.conn.recvCap)
    ensures Enabled(s.a.conn, DoMarkConnected)
    ensures var y := History(s.a, DoMarkConnected);
            && CanTalk(y.conn) && y.sent == s.a.sent && y.got == s.a.got
            && y.conn.recvCap == s.a.conn.recvCap && y.conn.out == s.a.conn.out
  {
    hide Flow, Inv;
    var common := s.a.conn.flags * {ClientSocketConnected, CloseRequested, Idle, BlockSend};
    assert ClientSocketConnected in common && common !! {CloseRequested, Idle, BlockSend};
  }

  lemma ExchangeDelivers(s: System)
    requires Exchanging(s)
    ensures CanDeliver(s) && CanDeliver(Swap(s)) && Open(s.b.conn) && BlockSend !in s.b.conn.flags
  {
    var common := s.a.conn.flags * {ClientSocketConnected, CloseRequested, Idle, BlockSend};
    assert ClientSocketConnected in common;
  }

  lemma DeliversHealthy(s: System)
    requires CanDeliver(s)
    ensures Healthy(s.a.conn) && Healthy(s.b.conn)
  {
  }

  /** The request arrives, the server's answer arrives, and the client marks itself connected. */
  lemma AnswerArrives(s: System, answer: seq<byte>) returns (states: seq<System>, steps: seq<(Who, Action)>, t: System)
    requires SystemInv(s) && Exchanging(s) && IsMessage(answer, s.a.conn.recvCap) && |answer| <= |s.b.conn.out|
    requires s.a.got == s.b.sent == []
    ensures Leads(s, states, steps, t) && SystemInv(t) && Talking(t) && Delivered(t) && SameSizes(s, t)
    ensures t.a.sent == s.a.sent && t.b.sent == [answer]
  {
    hide *;
    ExchangeDelivers(s);
    var u;
    states, steps, u := AllArrives(s);
    BothStandIs(s, u);
    LeadsHas(s, states, steps, u);
    DeliversHealthy(u);
    ExchangeStays(s, u);
    ExchangeDelivers(u);
    SwapInv(u);
    SwapIs(u);
    SizesOf(s, u);
    var more, moreSteps, v := NextArrives(Swap(u), answer);
    LeadsHas(Swap(u), more, moreSteps, v);
    LeadsSwaps(Swap(u), more, moreSteps, v);
    SwapIs(v);
    SwapInv(v);
    DeliversHealthy(v);
    ExchangeStays(u, Swap(v));
    SizesOf(u, Swap(v));
    LeadsOn(s, states, steps, u, SwapStates(more), SwapSteps(moreSteps), Swap(v));
    states, steps := states + SwapStates(more)[1..], steps + SwapSteps(moreSteps);
    MarksConnected(Swap(v));
    t := Call(Swap(v), DoMarkConnected);
    NothingEmitted(Swap(v).a.conn, DoMarkConnected);
    LeadsOn(s, states, steps, Swap(v), [Swap(v), t], [(A, DoMarkConnected)], t);
    states, steps := states + [Swap(v), t][1..], steps + [(A, DoMarkConnected)];
    EndsTalking(Swap(v), t);
    SizesAre(s, t);
  }

  lemma BothStandIs(s: System, t: System)
    requires BothStand(s, t)
    ensures SameStanding(s.a.conn, t.a.conn) && SameStanding(s.b.conn, t.b.conn)
    ensures t.a.sent == s.a.sent && t.a.got == s.a.got && t.b.sent == s.b.sent
  {
  }

  lemma SizesOf(s: System, t: System)
    requires SameSizes(s, t)
    ensures t.a.conn.recvCap == s.a.conn.recvCap && t.b.conn.recvCap == s.b.conn.recvCap
    ensures |t.a.conn.out| == |s.a.conn.out| && |t.b.conn.out| == |s.b.conn.out|
  {
  }

  lemma EndsTalking(s: System, t: System)
    requires Exchanging(s) && CanTalk(t.a.conn) && t.b == s.b && t.b.got == t.a.sent && t.a.got == t.b.sent
    ensures Talking(t) && Delivered(t)
  {
  }

  lemma OpenedIs(s: System)
    requires Opened(s)
    ensures SystemInv(s) && Opening(s.a.conn) && Opening(s.b.conn) && s.a.conn.isServer != s.b.conn.isServer
    ensures s.a.sent == s.a.got == s.b.sent == s.b.got == [] && s.ab == s.ba == []
  {
    SystemRunKeeps([s], [], 0);
    hide SystemInv, Opening;
    OpenedIsOpening(s.a);
    OpenedIsOpening(s.b);
  }

  lemma LeadsIsRun(s: System, states: seq<System>, steps: seq<(Who, Action)>, t: System)
    requires Opened(s) && Leads(s, states, steps, t)
    ensures SystemRun(states, steps) && states[0] == s && states[|steps|] == t
  {
    hide Next, Opened;
  }

  /** From a fresh connect and accept, whatever the buffers held before: the client's request, the server's
      answer and then any exchange of messages can be carried through, in a run that ends with both ends
      open and everything that either sent consumed by the other. */
  lemma OpensAndConverses(s: System, request: seq<byte>, answer: seq<byte>, script: Script)
          returns (states: seq<System>, steps: seq<(Who, Action)>, t: System)
    requires Opened(s) && !s.a.conn.isServer && Fits(s, A, request) && Fits(s, B, answer)
    requires forall i | 0 <= i < |script| :: Fits(s, script[i].0, script[i].1)
    ensures SystemRun(states, steps) && states[0] == s && states[|steps|] == t && Talking(t)
    ensures t.b.got == t.a.sent == [request] + Said(script, A)
    ensures t.a.got == t.b.sent == [answer] + Said(script, B)
  {
    hide SystemInv, Opened, Opening, Next, IsMessage, Talking, Leads, SystemRun, Exchanging;
    OpenedIs(s);
    var u, v;
    states, steps, u := Opens(s, request);
    var more, moreSteps;
    more, moreSteps, v := AnswerArrives(u, answer);
    LeadsOn(s, states, steps, u, more, moreSteps, v);
    LeadsHas(u, more, moreSteps, v);
    states, steps := states + more[1..], steps + moreSteps;
    forall i | 0 <= i < |script| ensures Fits(v, script[i].0, script[i].1) {
      assert Fits(s, script[i].0, script[i].1);
    }
    more, moreSteps, t := Converse(v, script);
    LeadsOn(s, states, steps, v, more, moreSteps, t);
    LeadsHas(v, more, moreSteps, t);
    states, steps := states + more[1..], steps + moreSteps;
    LeadsIsRun(s, states, steps, t);
  }
}
