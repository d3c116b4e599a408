/** The chat room of chat.c: any number of sessions that share a list of members under one lock. A step is an
    operation on the lock, one turn of a loop over the members, or one write to a client. */
module ChatRoom {
  import opened Basics

  /** Why a message is sent. */
  datatype Reason = Join | Say | Leave

  /** Where a session is. */
  datatype Pc =
    | Welcome                                          // the greeting is written
    | WantList                                         // lock_acquire
    | Listing(at: nat)                                 // the members are listed to the client
    | Prompt                                           // "Please enter your nick: "
    | ReadNick                                         // reader_read_line
    | WantCheck                                        // lock_acquire
    | Checking(at: nat)                                // room_has_member
    | Refused                                          // lock_release
    | TellTaken                                        // the error message is written
    | Sending(text: string, at: nat, reason: Reason)   // room_broadcast_message
    | Adding                                           // the member is put in front of the list
    | Releasing(reason: Reason)                        // lock_release
    | Talking                                          // reader_read_line
    | WantSay(line: string)                            // lock_acquire
    | WantLeave                                        // lock_acquire
    | Removing                                         // lseg_remove
    | Closed

  /** A session: what its client has been sent, and, for the statement of the properties, what it had been sent
      when it became a member, the places of its join and leave messages in the order of all messages, and whether
      it was ever put on the list of members. */
  datatype Session = Session(pc: Pc, nick: string, out: seq<string>, before: seq<string>, joined: nat, left: nat,
                             entered: bool)

  datatype Member = Member(id: nat, nick: string)

  /** 'history' is the order in which the messages of the room were broadcast. */
  datatype State = State(owner: Option<nat>, members: seq<Member>, sessions: seq<Session>, history: seq<string>)

  const EMPTY_ROOM: State := State(None, [], [], [])

  function JoinMessage(nick: string): string { nick + " has joined the room." }

  function SayMessage(nick: string, line: string): string { nick + " says: " + line }

  function LeaveMessage(nick: string): string { nick + " left the room." }

  /** A client connects. */
  function Connect(s: State): State {
    s.(sessions := s.sessions + [Session(Welcome, "", [], [], 0, 0, false)])
  }

  function Go(s: State, t: nat, pc: Pc): State
    requires t < |s.sessions|
  {
    s.(sessions := s.sessions[t := s.sessions[t].(pc := pc)])
  }

  function Write(s: State, t: nat, text: string): State
    requires t < |s.sessions|
  {
    s.(sessions := s.sessions[t := s.sessions[t].(out := s.sessions[t].out + [text])])
  }

  function Acquire(s: State, t: nat, pc: Pc): Option<State>
    requires t < |s.sessions|
  {
    if s.owner.Some? then None else Some(Go(s, t, pc).(owner := Some(t)))
  }

  function WithoutMember(ms: seq<Member>, t: nat): seq<Member> {
    if ms == [] then [] else if ms[0].id == t then ms[1..] else [ms[0]] + WithoutMember(ms[1..], t)
  }

  /** The message becomes the next one of the room, and is about to be sent to the first member. */
  function Announce(s: State, t: nat, text: string, reason: Reason): State
    requires t < |s.sessions|
  {
    Go(s, t, Sending(text, 0, reason)).(history := s.history + [text])
  }

  /** The next step of a session; 'input' is the line that its client sends if the step reads one, and none at
      the end of the input. */
  function Next(s: State, t: nat, input: Option<string>): Option<State>
    requires t < |s.sessions|
  {
    var x := s.sessions[t];
    match x.pc
    case Welcome =>
      var greeted := Write(s, t, "Welcome to the chat room.");
      Some(Go(Write(greeted, t, "The following members are present:"), t, WantList))
    case WantList => Acquire(s, t, Listing(0))
    case Listing(at) =>
      if at < |s.members| then Some(Go(Write(s, t, s.members[at].nick), t, Listing(at + 1)))
      else Some(Go(s, t, Prompt).(owner := None))
    case Prompt => Some(Go(Write(s, t, "Please enter your nick: "), t, ReadNick))
    case ReadNick =>
      if input == None then Some(Go(s, t, Closed))
      else Some(s.(sessions := s.sessions[t := x.(pc := WantCheck, nick := input.value)]))
    case WantCheck => Acquire(s, t, Checking(0))
    case Checking(at) =>
      if at < |s.members| then Some(Go(s, t, if s.members[at].nick == x.nick then Refused else Checking(at + 1)))
      else
        var s1 := s.(sessions := s.sessions[t := x.(joined := |s.history|)]);
        Some(Announce(s1, t, JoinMessage(x.nick), Join))
    case Refused => Some(Go(s, t, TellTaken).(owner := None))
    case TellTaken => Some(Go(Write(s, t, "Error: This nick is already in use."), t, Prompt))
    case Sending(text, at, reason) =>
      if at < |s.members| && s.members[at].id < |s.sessions| then
        Some(Go(Write(s, s.members[at].id, text), t, Sending(text, at + 1, reason)))
      else Some(Go(s, t, if reason == Join then Adding else Releasing(reason)))
    case Adding =>
      Some(State(s.owner, [Member(t, x.nick)] + s.members,
                 s.sessions[t := x.(pc := Releasing(Join), before := x.out, entered := true)], s.history))
    case Releasing(reason) => Some(Go(s, t, if reason == Leave then Closed else Talking).(owner := None))
    case Talking => Some(Go(s, t, if input == None then WantLeave else WantSay(input.value)))
    case WantSay(line) =>
      if s.owner.Some? then None else Some(Announce(s, t, SayMessage(x.nick, line), Say).(owner := Some(t)))
    case WantLeave => Acquire(s, t, Removing)
    case Removing =>
      var s1 := s.(members := WithoutMember(s.members, t), sessions := s.sessions[t := x.(left := |s.history|)]);
      Some(Announce(s1, t, LeaveMessage(x.nick), Leave))
    case Closed => None
  }

  predicate HasLock(pc: Pc) {
    pc.Listing? || pc.Checking? || pc.Refused? || pc.Sending? || pc.Adding? || pc.Releasing? || pc.Removing?
  }

  /** On the list of members. */
  predicate IsMember(pc: Pc) {
    || pc.Talking? || pc.WantSay? || pc.WantLeave? || pc.Removing?
    || ((pc.Sending? || pc.Releasing?) && pc.reason == Say) || (pc.Releasing? && pc.reason == Join)
  }

  /** Was on the list of members. */
  predicate HasLeft(x: Session) {
    (x.pc.Sending? || x.pc.Releasing?) && x.pc.reason == Leave
  }

  predicate Locked(s: State) {
    && (forall t | 0 <= t < |s.sessions| :: HasLock(s.sessions[t].pc) <==> s.owner == Some(t))
    && (s.owner.Some? ==> s.owner.value < |s.sessions|)
  }

  function Ids(ms: seq<Member>): set<nat> {
    set m | m in ms :: m.id
  }

  /** No member is on the list twice, and no two members have the same nick. */
  predicate Distinct(ms: seq<Member>) {
    && (forall i, j | 0 <= i < j < |ms| :: ms[i].id != ms[j].id)
    && (forall i, j | 0 <= i < j < |ms| :: ms[i].nick != ms[j].nick)
  }

  /** How many of the members are known to have another nick than the session. */
  function Compared(pc: Pc, members: nat): nat {
    match pc
    case Checking(at) => at
    case Sending(_, _, Join) => members
    case Adding => members
    case _ => 0
  }

  /** The client has been sent the messages from after its join message up to, but not including, number n. */
  predicate Received(x: Session, history: seq<string>, n: int) {
    && x.joined < n <= |history| && history[x.joined] == JoinMessage(x.nick)
    && x.out == x.before + history[x.joined + 1..n]
  }

  /** A session that has left received the messages strictly between its join and its leave message. */
  predicate Gone(x: Session, history: seq<string>) {
    && x.left < |history| && history[x.left] == LeaveMessage(x.nick) && Received(x, history, x.left)
  }

  /** What is known of one session. */
  predicate SessionOk(t: nat, x: Session, members: seq<Member>, history: seq<string>) {
    && (IsMember(x.pc) ==> t in Ids(members)) && (x.entered <==> IsMember(x.pc) || x.left != 0)
    && (x.left != 0 ==> (HasLeft(x) || x.pc == Closed) && Gone(x, history))
    && (x.pc.Sending? ==> history != [] && x.pc.text == history[|history| - 1] && x.pc.at <= |members|)
    && ((x.pc.Sending? && x.pc.reason == Join) || x.pc == Adding ==>
          history != [] && x.joined == |history| - 1 && history[x.joined] == JoinMessage(x.nick))
    && Compared(x.pc, |members|) <= |members|
    && (forall i | 0 <= i < Compared(x.pc, |members|) :: members[i].nick != x.nick)
  }

  predicate MemberOk(m: Member, x: Session, history: seq<string>, n: int) {
    m.nick == x.nick && IsMember(x.pc) && Received(x, history, n)
  }

  /** Up to which message the member at place i of the list has been sent the messages: up to the last one, except
      for one that is being sent and has not come to it. */
  function Heard(s: State, i: nat): int {
    if s.owner.Some? && s.owner.value < |s.sessions| then
      var pc := s.sessions[s.owner.value].pc;
      if pc.Sending? && i >= pc.at then |s.history| - 1 else |s.history|
    else |s.history|
  }

  predicate MembersOk(s: State) {
    forall i | 0 <= i < |s.members| ::
      s.members[i].id < |s.sessions| && MemberOk(s.members[i], s.sessions[s.members[i].id], s.history, Heard(s, i))
  }

  predicate SessionsOk(s: State) {
    forall t | 0 <= t < |s.sessions| :: SessionOk(t, s.sessions[t], s.members, s.history)
  }

  predicate Invariant(s: State) {
    Locked(s) && Distinct(s.members) && MembersOk(s) && SessionsOk(s)
  }

  /** A step that changes neither the list nor the history, and of the sessions only one. */
  lemma OnlyOneSession(s: State, t: nat, s': State)
    requires Invariant(s) && t < |s.sessions| == |s'.sessions|
    requires s'.members == s.members && s'.history == s.history
    requires forall u | 0 <= u < |s.sessions| && u != t :: s'.sessions[u] == s.sessions[u]
    requires SessionOk(t, s'.sessions[t], s.members, s.history)
    requires IsMember(s.sessions[t].pc) ==>
               IsMember(s'.sessions[t].pc) && s'.sessions[t] == s.sessions[t].(pc := s'.sessions[t].pc)
    requires Locked(s') && forall i | 0 <= i < |s.members| :: Heard(s', i) == Heard(s, i)
    ensures Invariant(s')
  {
    hide SessionOk, Received, Heard, Locked, Distinct;
    forall i | 0 <= i < |s.members|
      ensures MemberOk(s.members[i], s'.sessions[s.members[i].id], s.history, Heard(s', i))
    {
      assert MemberOk(s.members[i], s.sessions[s.members[i].id], s.history, Heard(s, i));
      SameOutSameReceived(s.sessions[s.members[i].id], s'.sessions[s.members[i].id], s.history, Heard(s, i));
    }
  }

  lemma SameOutSameReceived(x: Session, x': Session, history: seq<string>, n: int)
    requires Received(x, history, n) && x' == x.(pc := x'.pc)
    ensures Received(x', history, n)
  {
  }

  /** Whether the next step of a session announces a message, sends it to a member, or changes the list. */
  predicate IsRoomStep(s: State, pc: Pc) {
    || (pc.Checking? && pc.at >= |s.members|) || pc.WantSay? || pc.Removing?
    || (pc.Sending? && pc.at < |s.members|) || pc.Adding?
  }

  lemma LocalStep(s: State, t: nat, input: Option<string>)
    requires Invariant(s) && t < |s.sessions| && Next(s, t, input).Some? && !IsRoomStep(s, s.sessions[t].pc)
    ensures Invariant(Next(s, t, input).value)
  {
    hide Distinct, MembersOk, MemberOk, Gone, Received, SessionOk, Heard, Next, Locked;
    assert SessionOk(t, s.sessions[t], s.members, s.history);
    LocalFrame(s, t, input);
    LocalLock(s, t, input);
    forall i | 0 <= i < |s.members| ensures Heard(Next(s, t, input).value, i) == Heard(s, i) {
      LocalHeard(s, t, input, i);
    }
    LocalSession(s, t, input);
    OnlyOneSession(s, t, Next(s, t, input).value);
  }

  lemma LocalFrame(s: State, t: nat, input: Option<string>)
    requires t < |s.sessions| && Next(s, t, input).Some? && !IsRoomStep(s, s.sessions[t].pc)
    ensures var s' := Next(s, t, input).value;
            && |s'.sessions| == |s.sessions| && s'.members == s.members && s'.history == s.history
            && (forall u | 0 <= u < |s.sessions| && u != t :: s'.sessions[u] == s.sessions[u])
            && (IsMember(s.sessions[t].pc) ==>
                  IsMember(s'.sessions[t].pc) && s'.sessions[t] == s.sessions[t].(pc := s'.sessions[t].pc))
  {
  }

  /** A session takes the lock only when it is free, and only its holder gives it back. */
  lemma LockMoves(s: State, t: nat, input: Option<string>)
    requires t < |s.sessions| && Next(s, t, input).Some? && !IsRoomStep(s, s.sessions[t].pc)
    requires HasLock(s.sessions[t].pc) <==> s.owner == Some(t)
    ensures var s' := Next(s, t, input).value;
            && t < |s'.sessions| && (HasLock(s'.sessions[t].pc) <==> s'.owner == Some(t))
            && (|| s'.owner == s.owner
                || (s.owner == None && s'.owner == Some(t))
                || (s.owner == Some(t) && s'.owner == None))
  {
  }

  /** The lock is taken and given back as the places of the sessions say. */
  lemma LocalLock(s: State, t: nat, input: Option<string>)
    requires Locked(s) && t < |s.sessions| && Next(s, t, input).Some? && !IsRoomStep(s, s.sessions[t].pc)
    ensures Locked(Next(s, t, input).value)
  {
    hide IsMember, Next, HasLock;
    LocalFrame(s, t, input);
    LockMoves(s, t, input);
  }

  /** Nobody has heard more or less. */
  lemma LocalHeard(s: State, t: nat, input: Option<string>, i: nat)
    requires Locked(s) && t < |s.sessions| && Next(s, t, input).Some? && !IsRoomStep(s, s.sessions[t].pc)
    requires i < |s.members|
    ensures Heard(Next(s, t, input).value, i) == Heard(s, i)
  {
    hide IsMember;
    LocalFrame(s, t, input);
  }

  lemma LocalSession(s: State, t: nat, input: Option<string>)
    requires t < |s.sessions| && Next(s, t, input).Some? && !IsRoomStep(s, s.sessions[t].pc)
    requires SessionOk(t, s.sessions[t], s.members, s.history)
    ensures var s' := Next(s, t, input).value;
            |s'.sessions| == |s.sessions| && SessionOk(t, s'.sessions[t], s.members, s.history)
  {
    hide Gone;
    SameOutSameGone(s.sessions[t], Next(s, t, input).value.sessions[t].pc, s.history);
  }

  /** The message being sent is written to the next member. */
  lemma DeliverStep(s: State, t: nat, input: Option<string>)
    requires Invariant(s) && t < |s.sessions| && s.sessions[t].pc.Sending? && s.sessions[t].pc.at < |s.members|
    ensures Invariant(Next(s, t, input).value)
  {
    hide Distinct, MemberOk, SessionOk, Heard;
    DeliverStays(s, t, input);
    var s' := Next(s, t, input).value;
    forall i | 0 <= i < |s.members|
      ensures MemberOk(s.members[i], s'.sessions[s.members[i].id], s.history, Heard(s', i))
    {
      DeliverMember(s, t, input, i);
    }
    forall v | 0 <= v < |s.sessions| ensures SessionOk(v, s'.sessions[v], s.members, s.history) {
      DeliverSession(s, t, input, v);
    }
  }

  /** What delivery changes: what one client was sent, and how far the sender is. */
  lemma DeliverStays(s: State, t: nat, input: Option<string>)
    requires Invariant(s) && t < |s.sessions| && s.sessions[t].pc.Sending? && s.sessions[t].pc.at < |s.members|
    ensures var pc, s' := s.sessions[t].pc, Next(s, t, input).value;
            && Next(s, t, input).Some? && s.owner == Some(t) && s'.owner == s.owner
            && s'.members == s.members && s'.history == s.history && |s'.sessions| == |s.sessions|
            && s.members[pc.at].id < |s.sessions|
            && (forall v | 0 <= v < |s.sessions| ::
                  s'.sessions[v] == s.sessions[v].(pc := s'.sessions[v].pc, out := s'.sessions[v].out)
                  && (v != s.members[pc.at].id ==> s'.sessions[v].out == s.sessions[v].out)
                  && (v != t ==> s'.sessions[v].pc == s.sessions[v].pc))
            && s'.sessions[t].pc == pc.(at := pc.at + 1)
            && s'.sessions[s.members[pc.at].id].out == s.sessions[s.members[pc.at].id].out + [pc.text]
    ensures Locked(Next(s, t, input).value)
  {
    hide Distinct, SessionOk, Received, SessionsOk;
  }

  lemma DeliverMember(s: State, t: nat, input: Option<string>, i: nat)
    requires Invariant(s) && t < |s.sessions| && s.sessions[t].pc.Sending? && s.sessions[t].pc.at < |s.members|
    requires i < |s.members|
    ensures Next(s, t, input).Some?
    ensures var s' := Next(s, t, input).value;
            && s.members[i].id < |s'.sessions|
            && MemberOk(s.members[i], s'.sessions[s.members[i].id], s.history, Heard(s', i))
  {
    DeliverStays(s, t, input);
    hide Received, Next, Locked;
    var pc, s' := s.sessions[t].pc, Next(s, t, input).value;
    var x, x' := s.sessions[s.members[i].id], s'.sessions[s.members[i].id];
    assert SessionOk(t, s.sessions[t], s.members, s.history);
    assert MemberOk(s.members[i], x, s.history, Heard(s, i));
    if i == pc.at {
      OneMoreReceived(x, s.history);
    }
    SameOutSameReceived(if i == pc.at then x.(out := x.out + [pc.text]) else x, x', s.history, Heard(s', i));
  }

  lemma DeliverSession(s: State, t: nat, input: Option<string>, v: nat)
    requires Invariant(s) && t < |s.sessions| && s.sessions[t].pc.Sending? && s.sessions[t].pc.at < |s.members|
    requires v < |s.sessions|
    ensures Next(s, t, input).Some? && v < |Next(s, t, input).value.sessions|
    ensures SessionOk(v, Next(s, t, input).value.sessions[v], s.members, s.history)
  {
    DeliverStays(s, t, input);
    hide Received, Next, Gone, Locked, Distinct;
    var pc, s' := s.sessions[t].pc, Next(s, t, input).value;
    var u := s.members[pc.at].id;
    assert MemberOk(s.members[pc.at], s.sessions[u], s.history, Heard(s, pc.at));
    assert SessionOk(v, s.sessions[v], s.members, s.history) && SessionOk(u, s.sessions[u], s.members, s.history);
    SameOutSameGone(s.sessions[v], s'.sessions[v].pc, s.history);
  }

  lemma SameOutSameGone(x: Session, pc: Pc, history: seq<string>)
    ensures Gone(x.(pc := pc), history) == Gone(x, history)
  {
  }

  lemma OneMoreReceived(x: Session, history: seq<string>)
    requires history != [] && Received(x, history, |history| - 1)
    ensures Received(x.(out := x.out + [history[|history| - 1]]), history, |history|)
  {
    assert history[x.joined + 1..|history|] == history[x.joined + 1..|history| - 1] + [history[|history| - 1]];
  }

  /** The history has grown by a message that session t is about to send to the first of the members 'ms'. */
  predicate Announces(s: State, t: nat, x': Session, text: string, ms: seq<Member>, s': State) {
    && t < |s.sessions| && (s.owner == None || s.owner == Some(t))
    && !s.sessions[t].pc.Sending? && x'.pc.Sending? && x'.pc.text == text && x'.pc.at == 0
    && s' == State(Some(t), ms, s.sessions[t := x'], s.history + [text])
    && Distinct(ms) && (forall m | m in ms :: m in s.members) && (forall m | m in s.members && m.id != t :: m in ms)
    && SessionOk(t, x', ms, s'.history)
    && (t in Ids(ms) ==> IsMember(x'.pc) && x' == s.sessions[t].(pc := x'.pc))
  }

  lemma AnnounceStep(s: State, t: nat, x': Session, text: string, ms: seq<Member>, s': State)
    requires Invariant(s) && Announces(s, t, x', text, ms, s')
    ensures Invariant(s')
  {
    hide Distinct, MemberOk, SessionOk, Heard;
    forall i | 0 <= i < |ms|
      ensures ms[i].id < |s'.sessions| && MemberOk(ms[i], s'.sessions[ms[i].id], s'.history, Heard(s', i))
    {
      AnnounceMember(s, t, x', text, ms, s', i);
    }
    forall v | 0 <= v < |s.sessions| ensures SessionOk(v, s'.sessions[v], ms, s'.history) {
      AnnounceSession(s, t, x', text, ms, s', v);
    }
  }

  lemma AnnounceMember(s: State, t: nat, x': Session, text: string, ms: seq<Member>, s': State, i: nat)
    requires Invariant(s) && Announces(s, t, x', text, ms, s') && i < |ms|
    ensures ms[i].id < |s'.sessions| && MemberOk(ms[i], s'.sessions[ms[i].id], s'.history, Heard(s', i))
  {
    hide Distinct, SessionOk;
    assert ms[i] in ms;
    var j :| 0 <= j < |s.members| && s.members[j] == ms[i];
    assert MemberOk(s.members[j], s.sessions[ms[i].id], s.history, Heard(s, j));
    HistoryGrows(s.sessions[ms[i].id], s.history, text, |s.history|);
  }

  lemma AnnounceSession(s: State, t: nat, x': Session, text: string, ms: seq<Member>, s': State, v: nat)
    requires Invariant(s) && Announces(s, t, x', text, ms, s') && v < |s.sessions|
    ensures SessionOk(v, s'.sessions[v], ms, s'.history)
  {
    hide Distinct, MembersOk, Gone, Received;
    if v != t {
      assert SessionOk(v, s.sessions[v], s.members, s.history);
      assert !HasLock(s.sessions[v].pc);
      HistoryGrowsGone(s.sessions[v], s.history, text);
    }
  }

  lemma HistoryGrows(x: Session, history: seq<string>, text: string, n: int)
    requires Received(x, history, n)
    ensures Received(x, history + [text], n)
  {
    assert (history + [text])[x.joined + 1..n] == history[x.joined + 1..n];
  }

  lemma HistoryGrowsGone(x: Session, history: seq<string>, text: string)
    ensures Gone(x, history) ==> Gone(x, history + [text])
  {
    if Gone(x, history) {
      HistoryGrows(x, history, text, x.left);
    }
  }

  lemma SayStep(s: State, t: nat, input: Option<string>)
    requires Invariant(s) && t < |s.sessions| && s.sessions[t].pc.WantSay? && s.owner == None
    ensures Invariant(Next(s, t, input).value)
  {
    hide Distinct, MembersOk, Received, Gone;
    var x, s' := s.sessions[t], Next(s, t, input).value;
    assert SessionOk(t, x, s.members, s.history);
    HistoryGrowsGone(x, s.history, SayMessage(x.nick, x.pc.line));
    AnnounceStep(s, t, s'.sessions[t], SayMessage(x.nick, x.pc.line), s.members, s');
  }

  /** The nick is not in use: the join message is announced. */
  lemma JoinStep(s: State, t: nat, input: Option<string>)
    requires Invariant(s) && t < |s.sessions| && s.sessions[t].pc.Checking? && s.sessions[t].pc.at >= |s.members|
    ensures Invariant(Next(s, t, input).value)
  {
    hide Distinct, Received, Gone;
    var x, s' := s.sessions[t], Next(s, t, input).value;
    assert SessionOk(t, x, s.members, s.history);
    AnnounceStep(s, t, s'.sessions[t], JoinMessage(x.nick), s.members, s');
  }

  /** The member is put in front of the list. */
  lemma AddStep(s: State, t: nat, input: Option<string>)
    requires Invariant(s) && t < |s.sessions| && s.sessions[t].pc.Adding?
    ensures Invariant(Next(s, t, input).value)
  {
    hide MemberOk, SessionOk, Heard, Distinct;
    var x, s' := s.sessions[t], Next(s, t, input).value;
    FreshMember(s, t);
    DistinctWith(Member(t, x.nick), s.members);
    forall i | 0 <= i < |s'.members|
      ensures s'.members[i].id < |s'.sessions|
      ensures MemberOk(s'.members[i], s'.sessions[s'.members[i].id], s'.history, Heard(s', i))
    {
      if i == 0 {
        AddedMember(s, t, input);
      } else {
        OlderMember(s, t, input, i - 1);
      }
    }
    forall v | 0 <= v < |s.sessions| ensures SessionOk(v, s'.sessions[v], s'.members, s.history) {
      AddSession(s, t, input, v);
    }
  }

  lemma AddedMember(s: State, t: nat, input: Option<string>)
    requires Invariant(s) && t < |s.sessions| && s.sessions[t].pc.Adding?
    ensures var s' := Next(s, t, input).value;
            MemberOk(Member(t, s.sessions[t].nick), s'.sessions[t], s.history, Heard(s', 0))
  {
    hide Distinct, MembersOk, Gone;
    assert SessionOk(t, s.sessions[t], s.members, s.history);
  }

  lemma OlderMember(s: State, t: nat, input: Option<string>, i: nat)
    requires Invariant(s) && t < |s.sessions| && s.sessions[t].pc.Adding? && i < |s.members|
    ensures var s', m := Next(s, t, input).value, s.members[i];
            && s'.members[i + 1] == m && m.id < |s'.sessions|
            && MemberOk(m, s'.sessions[m.id], s.history, Heard(s', i + 1))
  {
    hide Received, Distinct, SessionOk;
    assert MemberOk(s.members[i], s.sessions[s.members[i].id], s.history, Heard(s, i));
  }

  lemma AddSession(s: State, t: nat, input: Option<string>, v: nat)
    requires Invariant(s) && t < |s.sessions| && s.sessions[t].pc.Adding? && v < |s.sessions|
    ensures var s' := Next(s, t, input).value; SessionOk(v, s'.sessions[v], s'.members, s.history)
  {
    hide Received, Gone, Distinct, MembersOk;
    var s' := Next(s, t, input).value;
    assert SessionOk(v, s.sessions[v], s.members, s.history);
    assert s.owner == Some(t);
    assert v != t ==> !HasLock(s.sessions[v].pc);
    assert forall m | m in s.members :: m in s'.members;
    assert s'.members[0] in s'.members;
  }

  lemma FreshMember(s: State, t: nat)
    requires Invariant(s) && t < |s.sessions| && s.sessions[t].pc.Adding?
    ensures forall m | m in s.members :: m.id != t && m.nick != s.sessions[t].nick
  {
    hide Received, Distinct;
    assert SessionOk(t, s.sessions[t], s.members, s.history);
    forall m | m in s.members ensures m.id != t && m.nick != s.sessions[t].nick {
      var i :| 0 <= i < |s.members| && s.members[i] == m;
      assert MemberOk(m, s.sessions[m.id], s.history, Heard(s, i));
    }
  }

  lemma {:induction false} WithoutMemberIs(ms: seq<Member>, t: nat)
    requires Distinct(ms)
    ensures Distinct(WithoutMember(ms, t)) && forall m :: m in WithoutMember(ms, t) <==> m in ms && m.id != t
    decreases |ms|
  {
    if ms != [] {
      WithoutMemberIs(ms[1..], t);
      assert ms == [ms[0]] + ms[1..];
      assert forall m :: m in ms <==> m == ms[0] || m in ms[1..];
      assert forall m | m in ms[1..] :: m.id != ms[0].id && m.nick != ms[0].nick;
      DistinctWith(ms[0], WithoutMember(ms[1..], t));
    }
  }

  lemma DistinctWith(m: Member, ms: seq<Member>)
    requires forall x | x in ms :: x.id != m.id && x.nick != m.nick
    ensures Distinct(ms) ==> Distinct([m] + ms)
  {
    var all := [m] + ms;
    if Distinct(ms) {
      forall i, j | 0 <= i < j < |all| ensures all[i].id != all[j].id && all[i].nick != all[j].nick {
        assert all[j] == ms[j - 1] && ms[j - 1] in ms;
        assert i > 0 ==> all[i] == ms[i - 1];
      }
    }
  }

  lemma LeaverIsGone(x: Session, history: seq<string>)
    requires Received(x, history, |history|)
    ensures var x' := x.(left := |history|); forall pc :: Gone(x'.(pc := pc), history + [LeaveMessage(x.nick)])
    ensures |history| != 0
  {
    HistoryGrows(x, history, LeaveMessage(x.nick), |history|);
  }

  /** The holder of the lock that is about to leave has heard everything. */
  lemma LeaverHeardAll(s: State, t: nat)
    requires Invariant(s) && t < |s.sessions| && s.sessions[t].pc.Removing?
    ensures s.owner == Some(t) && Received(s.sessions[t], s.history, |s.history|)
  {
    hide Distinct, Received, Gone;
    assert SessionOk(t, s.sessions[t], s.members, s.history);
    var m :| m in s.members && m.id == t;
    var i :| 0 <= i < |s.members| && s.members[i] == m;
    assert MemberOk(m, s.sessions[t], s.history, Heard(s, i)) && Heard(s, i) == |s.history|;
  }

  /** The member is taken off the list, and its leave message is announced. */
  lemma LeaveStep(s: State, t: nat, input: Option<string>)
    requires Invariant(s) && t < |s.sessions| && s.sessions[t].pc.Removing?
    ensures Invariant(Next(s, t, input).value)
  {
    hide Invariant, Received, Gone, WithoutMember;
    var x, s' := s.sessions[t], Next(s, t, input).value;
    LeaverHeardAll(s, t);
    MembersAreDistinct(s);
    WithoutMemberIs(s.members, t);
    LeaverIsGone(x, s.history);
    AnnounceStep(s, t, s'.sessions[t], LeaveMessage(x.nick), s'.members, s');
  }

  lemma MembersAreDistinct(s: State)
    requires Invariant(s)
    ensures Distinct(s.members) && Locked(s) && SessionsOk(s)
  {
  }

  lemma StepKeepsInvariant(s: State, t: nat, input: Option<string>)
    requires Invariant(s) && t < |s.sessions| && Next(s, t, input).Some?
    ensures Invariant(Next(s, t, input).value)
  {
    hide Invariant;
    if !IsRoomStep(s, s.sessions[t].pc) {
      LocalStep(s, t, input);
    } else {
      match s.sessions[t].pc {
        case Checking(_) => JoinStep(s, t, input);
        case WantSay(_) => SayStep(s, t, input);
        case Removing => LeaveStep(s, t, input);
        case Adding => AddStep(s, t, input);
        case _ => DeliverStep(s, t, input);
      }
    }
  }

  lemma ConnectKeepsInvariant(s: State)
    requires Invariant(s)
    ensures Invariant(Connect(s))
  {
    hide Received, Gone, Distinct;
    var s' := Connect(s);
    forall i | 0 <= i < |s.members|
      ensures s.members[i].id < |s'.sessions|
      ensures MemberOk(s.members[i], s'.sessions[s.members[i].id], s.history, Heard(s', i))
    {
      assert MemberOk(s.members[i], s.sessions[s.members[i].id], s.history, Heard(s, i));
    }
    forall v | 0 <= v < |s'.sessions| ensures SessionOk(v, s'.sessions[v], s.members, s.history) {
      if v < |s.sessions| {
        assert SessionOk(v, s.sessions[v], s.members, s.history);
      }
    }
  }

  /** One step of the room: a client connects, or some session goes on with some input. */
  ghost predicate SomeStep(s: State, s': State) {
    s' == Connect(s) || exists t: nat, input: Option<string> :: StepOf(s, t, input, s')
  }

  predicate StepOf(s: State, t: nat, input: Option<string>, s': State) {
    t < |s.sessions| && Next(s, t, input) == Some(s')
  }

  ghost predicate IsRun(run: seq<State>)
    decreases |run|
  {
    && run != []
    && if |run| == 1 then run[0] == EMPTY_ROOM
       else IsRun(run[..|run| - 1]) && SomeStep(run[|run| - 2], run[|run| - 1])
  }

  lemma {:induction false} RunKeepsInvariant(run: seq<State>)
    requires IsRun(run)
    ensures Invariant(run[|run| - 1])
    decreases |run|
  {
    hide Next, SessionOk, MemberOk, Connect;
    if |run| > 1 {
      var s, s' := run[|run| - 2], run[|run| - 1];
      var before := run[..|run| - 1];
      RunKeepsInvariant(before);
      assert before[|before| - 1] == s;
      if s' == Connect(s) {
        ConnectKeepsInvariant(s);
      } else {
        var t: nat, input: Option<string> :| StepOf(s, t, input, s');
        StepKeepsInvariant(s, t, input);
      }
    }
  }

  /** In every state of every run no two members have the same nick, and a member's client has been sent, after
      what it was sent before, exactly the messages that follow its join message in the order of the room; only
      a message that is being sent may not have come to it yet. */
  lemma MembersHearEverything(run: seq<State>)
    requires IsRun(run)
    ensures var s := run[|run| - 1];
            && (forall i, j | 0 <= i < j < |s.members| :: s.members[i].nick != s.members[j].nick)
            && (forall i | 0 <= i < |s.members| ::
                  && s.members[i].id < |s.sessions| && s.sessions[s.members[i].id].nick == s.members[i].nick
                  && Received(s.sessions[s.members[i].id], s.history, Heard(s, i)))
            && (forall i | 0 <= i < |s.members| ::
                  Heard(s, i) == |s.history| || (Heard(s, i) == |s.history| - 1 && s.owner.Some?))
  {
    hide Received, SessionOk;
    RunKeepsInvariant(run);
    var s := run[|run| - 1];
    forall i | 0 <= i < |s.members|
      ensures s.members[i].id < |s.sessions| && s.sessions[s.members[i].id].nick == s.members[i].nick
      ensures Received(s.sessions[s.members[i].id], s.history, Heard(s, i))
    {
      assert MemberOk(s.members[i], s.sessions[s.members[i].id], s.history, Heard(s, i));
    }
  }

  /** A client that was a member and has left was sent exactly the messages strictly between its join message and
      its leave message, and it is sent nothing more. */
  lemma LeaversHeardTheirPart(run: seq<State>, t: nat)
    requires IsRun(run) && t < |run[|run| - 1].sessions|
    requires var x := run[|run| - 1].sessions[t]; x.entered && !IsMember(x.pc)
    ensures var s, x := run[|run| - 1], run[|run| - 1].sessions[t];
            && x.joined < x.left < |s.history|
            && s.history[x.joined] == JoinMessage(x.nick) && s.history[x.left] == LeaveMessage(x.nick)
            && x.out == x.before + s.history[x.joined + 1..x.left]
  {
    RunKeepsInvariant(run);
    assert SessionOk(t, run[|run| - 1].sessions[t], run[|run| - 1].members, run[|run| - 1].history);
  }
}
