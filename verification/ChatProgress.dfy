/** What the chat room of chat.c does for its clients: from the states in which the lock is free, each operation can be
    carried out, and has exactly the effect that is stated here; and the lock can always be made free. */
module ChatProgress {
  import opened Basics
  import opened ChatRoom

  ghost predicate IsPath(s: State, path: seq<State>, s': State)
    decreases |path|
  {
    if path == [] then s == s' else SomeStep(s, path[0]) && IsPath(path[0], path[1..], s')
  }

  /** Some steps lead from s to s'. */
  ghost predicate Leads(s: State, s': State) {
    exists path :: IsPath(s, path, s')
  }

  lemma {:induction false} PathThenPath(s: State, a: seq<State>, s1: State, b: seq<State>, s2: State)
    requires IsPath(s, a, s1) && IsPath(s1, b, s2)
    ensures IsPath(s, a + b, s2)
    decreases |a|
  {
    hide SomeStep;
    if a == [] {
      assert a + b == b;
    } else {
      PathThenPath(a[0], a[1..], s1, b, s2);
      assert (a + b)[1..] == a[1..] + b;
    }
  }

  lemma LeadsOn(s: State, s1: State, s2: State)
    requires Leads(s, s1) && Leads(s1, s2)
    ensures Leads(s, s2)
  {
    hide IsPath;
    var a :| IsPath(s, a, s1);
    var b :| IsPath(s1, b, s2);
    PathThenPath(s, a, s1, b, s2);
  }

  /** One step of a session, which is possible. */
  lemma OneStep(s: State, t: nat, input: Option<string>) returns (s': State)
    requires Invariant(s) && t < |s.sessions| && Next(s, t, input).Some?
    ensures s' == Next(s, t, input).value && Leads(s, s') && Invariant(s')
  {
    hide Invariant, Next;
    s' := Next(s, t, input).value;
    StepKeepsInvariant(s, t, input);
    assert StepOf(s, t, input, s');
    assert IsPath(s', [], s') && [s'][1..] == [];
    assert IsPath(s, [s'], s');
  }

  lemma {:induction false} RunGoesOn(run: seq<State>, path: seq<State>, s': State)
    requires IsRun(run) && IsPath(run[|run| - 1], path, s')
    ensures IsRun(run + path) && (run + path)[|run + path| - 1] == s'
    decreases |path|
  {
    hide SomeStep;
    if path == [] {
      assert run + path == run;
    } else {
      var longer := run + [path[0]];
      assert longer[..|longer| - 1] == run && longer[|longer| - 2] == run[|run| - 1];
      RunGoesOn(longer, path[1..], s');
      assert longer + path[1..] == run + path;
    }
  }

  /** A text has been written to the clients with the given numbers, and session t has come to 'pc'. */
  function Told(s: State, t: nat, ids: set<nat>, text: string, pc: Pc): State {
    s.(sessions := seq(|s.sessions|, v requires 0 <= v < |s.sessions| =>
      ToldOne(s.sessions[v], v, t, ids, text, pc)))
  }

  function ToldOne(x: Session, v: nat, t: nat, ids: set<nat>, text: string, pc: Pc): Session {
    x.(out := if v in ids then x.out + [text] else x.out, pc := if v == t then pc else x.pc)
  }

  /** Where a session goes when its message has been sent to all members. */
  function AfterSending(reason: Reason): Pc {
    if reason == Join then Adding else Releasing(reason)
  }

  lemma FirstId(ms: seq<Member>, at: nat)
    requires at < |ms| && Distinct(ms)
    ensures Ids(ms[at..]) == {ms[at].id} + Ids(ms[at + 1..]) && ms[at].id !in Ids(ms[at + 1..])
  {
    assert ms[at..] == [ms[at]] + ms[at + 1..];
    assert forall m | m in ms[at + 1..] :: m.id != ms[at].id;
  }

  /** The message is written to one more member. */
  lemma ToldFirst(s: State, t: nat)
    requires Invariant(s) && t < |s.sessions| && s.sessions[t].pc.Sending? && s.sessions[t].pc.at < |s.members|
    ensures var pc, u := s.sessions[t].pc, s.members[s.sessions[t].pc.at].id;
            Next(s, t, None) == Some(Told(s, t, {u}, pc.text, pc.(at := pc.at + 1)))
  {
    hide SessionOk, MemberOk, Received;
    var pc, u := s.sessions[t].pc, s.members[s.sessions[t].pc.at].id;
    assert Next(s, t, None).value.sessions == Told(s, t, {u}, pc.text, pc.(at := pc.at + 1)).sessions;
  }

  lemma ToldRest(s: State, t: nat, u: nat, ids: set<nat>, text: string, pc1: Pc, pc: Pc)
    requires u !in ids
    ensures Told(Told(s, t, {u}, text, pc1), t, ids, text, pc) == Told(s, t, {u} + ids, text, pc)
  {
    assert Told(Told(s, t, {u}, text, pc1), t, ids, text, pc).sessions == Told(s, t, {u} + ids, text, pc).sessions;
  }

  /** 'room_broadcast_message': every member is sent the message, and nobody else. */
  lemma {:induction false} Broadcast(s: State, t: nat) returns (s': State)
    requires Invariant(s) && t < |s.sessions| && s.sessions[t].pc.Sending? && s.sessions[t].pc.at <= |s.members|
    ensures var pc := s.sessions[t].pc;
            s' == Told(s, t, Ids(s.members[pc.at..]), pc.text, AfterSending(pc.reason))
    ensures Leads(s, s') && Invariant(s')
    decreases |s.members| - s.sessions[t].pc.at
  {
    hide Leads, Next;
    var pc := s.sessions[t].pc;
    if pc.at < |s.members| {
      ToldFirst(s, t);
      var s1 := OneStep(s, t, None);
      s' := Broadcast(s1, t);
      LeadsOn(s, s1, s');
      DistinctMembers(s);
      FirstId(s.members, pc.at);
      ToldRest(s, t, s.members[pc.at].id, Ids(s.members[pc.at + 1..]), pc.text, pc.(at := pc.at + 1),
               AfterSending(pc.reason));
    } else {
      ToldNobody(s, t);
      s' := OneStep(s, t, None);
    }
  }

  lemma DistinctMembers(s: State)
    requires Invariant(s)
    ensures Distinct(s.members)
  {
  }

  lemma ToldNobody(s: State, t: nat)
    requires t < |s.sessions| && s.sessions[t].pc.Sending? && s.sessions[t].pc.at == |s.members|
    ensures var pc := s.sessions[t].pc;
            Next(s, t, None) == Some(Told(s, t, Ids(s.members[pc.at..]), pc.text, AfterSending(pc.reason)))
  {
    var pc := s.sessions[t].pc;
    assert Ids(s.members[pc.at..]) == {};
    assert Next(s, t, None).value.sessions == Told(s, t, {}, pc.text, AfterSending(pc.reason)).sessions;
  }

  /** Session t alone has changed. */
  function With(s: State, t: nat, x: Session): State
    requires t < |s.sessions|
  {
    s.(sessions := s.sessions[t := x])
  }

  predicate InUse(nick: string, members: seq<Member>) {
    exists m :: m in members && m.nick == nick
  }

  /** 'room_has_member': the nick is looked for among all members. */
  lemma {:induction false} Check(s: State, t: nat) returns (s': State)
    requires Invariant(s) && t < |s.sessions| && s.sessions[t].pc.Checking? && s.sessions[t].pc.at <= |s.members|
    ensures Leads(s, s') && Invariant(s')
    ensures var x := s.sessions[t];
            if InUse(x.nick, s.members[x.pc.at..]) then s' == With(s, t, x.(pc := Refused))
            else s' == With(s, t, x.(pc := Checking(|s.members|)))
    decreases |s.members| - s.sessions[t].pc.at
  {
    hide Leads, Invariant;
    var x := s.sessions[t];
    var rest := s.members[x.pc.at..];
    if rest == [] {
      LeadsNowhere(s);
      assert s.sessions[t := x] == s.sessions;
      s' := s;
      return;
    }
    assert rest == [s.members[x.pc.at]] + s.members[x.pc.at + 1..];
    var s1 := OneStep(s, t, None);
    if s.members[x.pc.at].nick == x.nick {
      assert s.members[x.pc.at] in rest;
      s' := s1;
    } else {
      s' := Check(s1, t);
      LeadsOn(s, s1, s');
      assert InUse(x.nick, rest) <==> InUse(x.nick, s.members[x.pc.at + 1..]);
    }
  }

  lemma LeadsNowhere(s: State)
    ensures Leads(s, s)
  {
    assert IsPath(s, [], s);
  }

  /** A nick that is in use is refused, with the message that the client is sent. */
  lemma NickIsRefused(s: State, t: nat) returns (s': State)
    requires Invariant(s) && s.owner == None && t < |s.sessions| && s.sessions[t].pc == WantCheck
    requires InUse(s.sessions[t].nick, s.members)
    ensures Leads(s, s') && Invariant(s')
    ensures var x := s.sessions[t];
            s' == With(s, t, x.(pc := Prompt, out := x.out + ["Error: This nick is already in use."]))
  {
    hide Leads, Invariant, InUse;
    var s1 := OneStep(s, t, None);
    assert s1.members[0..] == s.members;
    var s2 := Check(s1, t);
    LeadsOn(s, s1, s2);
    var s3 := OneStep(s2, t, None);
    LeadsOn(s, s2, s3);
    s' := OneStep(s3, t, None);
    LeadsOn(s, s3, s');
  }

  /** Who is not at a place of a member is not on the list. */
  lemma NotListed(s: State, t: nat)
    requires Invariant(s) && t < |s.sessions|
    ensures t in Ids(s.members) <==> IsMember(s.sessions[t].pc)
  {
    hide Received, Distinct;
    assert SessionOk(t, s.sessions[t], s.members, s.history);
    if t in Ids(s.members) {
      var i :| 0 <= i < |s.members| && s.members[i].id == t;
      assert MemberOk(s.members[i], s.sessions[t], s.history, Heard(s, i));
    }
  }

  /** The room after a client has joined: it is in front of the list, and all other members have been told. */
  function Joined(s: State, t: nat): State
    requires t < |s.sessions|
  {
    var x := s.sessions[t];
    var text := x.nick + " has joined the room.";
    var x' := x.(pc := Talking, joined := |s.history|, before := x.out, entered := true);
    State(None, [Member(t, x.nick)] + s.members, Told(s, t, Ids(s.members), text, Talking).sessions[t := x'],
          s.history + [text])
  }

  /** A nick that is not in use is accepted. */
  lemma NickIsAccepted(s: State, t: nat) returns (s': State)
    requires Invariant(s) && s.owner == None && t < |s.sessions| && s.sessions[t].pc == WantCheck
    requires !InUse(s.sessions[t].nick, s.members)
    ensures Leads(s, s') && Invariant(s') && s' == Joined(s, t)
  {
    hide Leads, Invariant, InUse, Told, Ids;
    NotListed(s, t);
    var s1 := OneStep(s, t, None);
    assert s1.members[0..] == s.members;
    var s2 := Check(s1, t);
    LeadsOn(s, s1, s2);
    var s3 := OneStep(s2, t, None);
    LeadsOn(s, s2, s3);
    var s4 := Broadcast(s3, t);
    LeadsOn(s, s3, s4);
    assert s3.members[0..] == s.members;
    ToldIs(s3, t, Ids(s.members), JoinMessage(s.sessions[t].nick), Adding);
    var s5 := OneStep(s4, t, None);
    LeadsOn(s, s4, s5);
    s' := OneStep(s5, t, None);
    LeadsOn(s, s5, s');
    ToldIs(s, t, Ids(s.members), JoinMessage(s.sessions[t].nick), Talking);
    assert s'.sessions == Joined(s, t).sessions;
  }

  /** What has been written to whom. */
  lemma ToldIs(s: State, t: nat, ids: set<nat>, text: string, pc: Pc)
    requires t < |s.sessions|
    ensures var s' := Told(s, t, ids, text, pc);
            && |s'.sessions| == |s.sessions| && s' == s.(sessions := s'.sessions)
            && (forall v | 0 <= v < |s.sessions| && v != t ::
                  var x := s.sessions[v];
                  s'.sessions[v] == if v in ids then x.(out := x.out + [text]) else x)
            && s'.sessions[t] == s.sessions[t].(pc := pc, out := s'.sessions[t].out)
            && s'.sessions[t].out == if t in ids then s.sessions[t].out + [text] else s.sessions[t].out
  {
  }

  /** A line that a member's client sends is broadcast to all members, with the nick of the member. */
  lemma LineIsBroadcast(s: State, t: nat, line: string) returns (s': State)
    requires Invariant(s) && s.owner == None && t < |s.sessions| && s.sessions[t].pc == Talking
    ensures Leads(s, s') && Invariant(s')
    ensures var text := s.sessions[t].nick + " says: " + line;
            && t in Ids(s.members)
            && s' == Told(s, t, Ids(s.members), text, Talking).(history := s.history + [text])
  {
    hide Leads, Invariant, Told, Ids;
    NotListed(s, t);
    var text := s.sessions[t].nick + " says: " + line;
    var s1 := OneStep(s, t, Some(line));
    var s2 := OneStep(s1, t, None);
    LeadsOn(s, s1, s2);
    var s3 := Broadcast(s2, t);
    LeadsOn(s, s2, s3);
    assert s2.members[0..] == s.members;
    ToldIs(s2, t, Ids(s.members), text, Releasing(Say));
    s' := OneStep(s3, t, None);
    LeadsOn(s, s3, s');
    ToldIs(s, t, Ids(s.members), text, Talking);
    assert s'.sessions == Told(s, t, Ids(s.members), text, Talking).sessions;
  }

  /** A member whose client has no more lines leaves, and the other members are told. */
  lemma MemberLeaves(s: State, t: nat) returns (s': State)
    requires Invariant(s) && s.owner == None && t < |s.sessions| && s.sessions[t].pc == Talking
    ensures Leads(s, s') && Invariant(s')
    ensures var (x, text) := (s.sessions[t], s.sessions[t].nick + " left the room.");
            var rest := WithoutMember(s.members, t);
            && s'.owner == None && s'.members == rest && s'.history == s.history + [text]
            && s'.sessions == Told(s, t, Ids(rest), text, Closed).sessions[t := x.(pc := Closed, left := |s.history|)]
    ensures forall m :: m in WithoutMember(s.members, t) <==> m in s.members && m.id != t
  {
    hide Leads, Invariant, Told, Ids, WithoutMember;
    var text := s.sessions[t].nick + " left the room.";
    var rest := WithoutMember(s.members, t);
    var s1 := OneStep(s, t, None);
    var s2 := OneStep(s1, t, None);
    LeadsOn(s, s1, s2);
    var s3 := OneStep(s2, t, None);
    LeadsOn(s, s2, s3);
    var s4 := Broadcast(s3, t);
    LeadsOn(s, s3, s4);
    assert s3.members[0..] == rest;
    ToldIs(s3, t, Ids(rest), text, Releasing(Leave));
    s' := OneStep(s4, t, None);
    LeadsOn(s, s4, s');
    ToldIs(s, t, Ids(rest), text, Closed);
    DistinctMembers(s);
    WithoutMemberIs(s.members, t);
    NotIn(rest, t);
    var x' := s.sessions[t].(pc := Closed, left := |s.history|);
    assert s'.sessions == Told(s, t, Ids(rest), text, Closed).sessions[t := x'];
  }

  lemma NotIn(ms: seq<Member>, t: nat)
    requires forall m | m in ms :: m.id != t
    ensures t !in Ids(ms)
  {
  }

  function Nicks(ms: seq<Member>): seq<string> {
    seq(|ms|, i requires 0 <= i < |ms| => ms[i].nick)
  }

  /** The nicks of the members are written to the client, and the lock is released. */
  lemma {:induction false} ListMembers(s: State, t: nat) returns (s': State)
    requires Invariant(s) && t < |s.sessions| && s.sessions[t].pc.Listing? && s.sessions[t].pc.at <= |s.members|
    ensures Leads(s, s') && Invariant(s')
    ensures var x := s.sessions[t];
            s' == With(s, t, x.(pc := Prompt, out := x.out + Nicks(s.members[x.pc.at..]))).(owner := None)
    decreases |s.members| - s.sessions[t].pc.at
  {
    hide Leads, Invariant;
    var x := s.sessions[t];
    var s1 := OneStep(s, t, None);
    if x.pc.at < |s.members| {
      s' := ListMembers(s1, t);
      LeadsOn(s, s1, s');
      assert Nicks(s.members[x.pc.at..]) == [s.members[x.pc.at].nick] + Nicks(s.members[x.pc.at + 1..]);
      assert x.out + Nicks(s.members[x.pc.at..])
          == x.out + [s.members[x.pc.at].nick] + Nicks(s.members[x.pc.at + 1..]);
    } else {
      assert x.out + Nicks(s.members[x.pc.at..]) == x.out;
      s' := s1;
    }
  }

  /** What a client that has connected is sent before it is asked for its nick. */
  lemma ClientIsGreeted(s: State, t: nat) returns (s': State)
    requires Invariant(s) && s.owner == None && t < |s.sessions| && s.sessions[t].pc == Welcome
    ensures Leads(s, s') && Invariant(s')
    ensures var (x, hello) := (s.sessions[t], ["Welcome to the chat room.", "The following members are present:"]);
            s' == With(s, t, x.(pc := ReadNick, out := x.out + hello + Nicks(s.members) + ["Please enter your nick: "]))
  {
    hide Leads, Invariant, Nicks;
    var x := s.sessions[t];
    var s1 := OneStep(s, t, None);
    assert s1.sessions[t].out == x.out + ["Welcome to the chat room.", "The following members are present:"];
    var s2 := OneStep(s1, t, None);
    LeadsOn(s, s1, s2);
    assert s2.members[0..] == s.members;
    var s3 := ListMembers(s2, t);
    LeadsOn(s, s2, s3);
    s' := OneStep(s3, t, None);
    LeadsOn(s, s3, s');
  }

  /** The nick that a client enters becomes that of its session; at the end of the input the session ends. */
  lemma NickIsRead(s: State, t: nat, input: Option<string>) returns (s': State)
    requires Invariant(s) && t < |s.sessions| && s.sessions[t].pc == ReadNick
    ensures Leads(s, s') && Invariant(s')
    ensures s' == With(s, t, if input.Some? then s.sessions[t].(pc := WantCheck, nick := input.value)
                             else s.sessions[t].(pc := Closed))
  {
    hide Leads, Invariant;
    s' := OneStep(s, t, input);
  }

  /** How far the holder of the lock is from releasing it. */
  function Stage(pc: Pc): nat {
    match pc
    case Listing(_) => 1
    case Checking(_) => 4
    case Removing => 4
    case Sending(_, _, _) => 3
    case Adding => 2
    case Releasing(_) => 1
    case Refused => 1
    case _ => 0
  }

  /** Of the other sessions nothing has changed but what their clients were sent. */
  predicate OthersStay(s: State, s': State, t: nat) {
    |s'.sessions| == |s.sessions| &&
    forall v | 0 <= v < |s.sessions| && v != t :: s'.sessions[v] == s.sessions[v].(out := s'.sessions[v].out)
  }

  /** The holder of the lock releases it in the end. */
  lemma {:induction false} HolderReleases(s: State, t: nat) returns (s': State)
    requires Invariant(s) && t < |s.sessions| && s.owner == Some(t)
    ensures Leads(s, s') && Invariant(s') && s'.owner == None && OthersStay(s, s', t)
    decreases Stage(s.sessions[t].pc)
  {
    hide Leads, Invariant;
    HolderKnows(s, t);
    var s1;
    match s.sessions[t].pc {
      case Listing(at) =>
        if at < |s.members| {
          s' := ListMembers(s, t);
        } else {
          s' := OneStep(s, t, None);
        }
        return;
      case Checking(_) =>
        var s0 := Check(s, t);
        if s0.sessions[t].pc == Refused {
          s1 := s0;
        } else {
          s1 := OneStep(s0, t, None);
          LeadsOn(s, s0, s1);
        }
      case Sending(_, _, _) =>
        s1 := Broadcast(s, t);
      case Adding =>
        s1 := OneStep(s, t, None);
      case Removing =>
        s1 := OneStep(s, t, None);
      case _ =>
        s' := OneStep(s, t, None);
        return;
    }
    s' := HolderReleases(s1, t);
    LeadsOn(s, s1, s');
  }

  lemma HolderKnows(s: State, t: nat)
    requires Invariant(s) && t < |s.sessions|
    ensures s.owner == Some(t) <==> HasLock(s.sessions[t].pc)
    ensures var pc := s.sessions[t].pc; pc.Checking? || pc.Sending? ==> pc.at <= |s.members|
  {
    hide Received, Distinct;
    assert SessionOk(t, s.sessions[t], s.members, s.history);
  }

  /** In every state of every run a session that is about to refuse a nick has found it among the members. */
  lemma {:induction false} RefusedIsInUse(run: seq<State>, t: nat)
    requires IsRun(run) && t < |run[|run| - 1].sessions| && run[|run| - 1].sessions[t].pc == Refused
    ensures InUse(run[|run| - 1].sessions[t].nick, run[|run| - 1].members)
    decreases |run|
  {
    hide InUse;
    var s, before := run[|run| - 2], run[..|run| - 1];
    assert before[|before| - 1] == s;
    RunKeepsInvariant(before);
    if t < |s.sessions| && s.sessions[t].pc == Refused {
      RefusedIsInUse(before, t);
    }
    StillInUse(s, run[|run| - 1], t);
  }

  /** A session is refused by a step only if its nick is in use, and while it is being refused the list stays. */
  lemma StillInUse(s: State, s': State, t: nat)
    requires Invariant(s) && SomeStep(s, s') && t < |s'.sessions| && s'.sessions[t].pc == Refused
    requires t < |s.sessions| && s.sessions[t].pc == Refused ==> InUse(s.sessions[t].nick, s.members)
    ensures InUse(s'.sessions[t].nick, s'.members)
  {
    hide InUse, MembersOk, SessionsOk, Distinct, Next;
    if s' != Connect(s) {
      var u: nat, input: Option<string> :| StepOf(s, u, input, s');
      if u == t {
        FoundInUse(s, t, input);
      } else {
        StepOfAnother(s, u, input, t);
        assert HasLock(s.sessions[t].pc) && s.owner == Some(t) && !HasLock(s.sessions[u].pc);
      }
    }
  }

  /** A step of another session leaves a session where it is; if that does not hold the lock, the list stays. */
  lemma StepOfAnother(s: State, u: nat, input: Option<string>, t: nat)
    requires u < |s.sessions| && Next(s, u, input).Some? && t < |Next(s, u, input).value.sessions| && t != u
    ensures var s' := Next(s, u, input).value;
            && t < |s.sessions| && s'.sessions[t] == s.sessions[t].(out := s'.sessions[t].out)
            && (!HasLock(s.sessions[u].pc) ==> s'.members == s.members)
  {
    hide HasLock, Next;
    SessionOfAnother(s, u, input, t);
    if !HasLock(s.sessions[u].pc) {
      ListOfMembers(s, u, input);
    }
  }

  lemma SessionOfAnother(s: State, u: nat, input: Option<string>, t: nat)
    requires u < |s.sessions| && Next(s, u, input).Some? && t < |Next(s, u, input).value.sessions| && t != u
    ensures var s' := Next(s, u, input).value;
            t < |s.sessions| && s'.sessions[t] == s.sessions[t].(out := s'.sessions[t].out)
  {
    hide WithoutMember;
  }

  lemma ListOfMembers(s: State, u: nat, input: Option<string>)
    requires u < |s.sessions| && Next(s, u, input).Some? && !HasLock(s.sessions[u].pc)
    ensures Next(s, u, input).value.members == s.members
  {
    hide WithoutMember;
  }

  lemma FoundInUse(s: State, t: nat, input: Option<string>)
    requires t < |s.sessions| && Next(s, t, input).Some? && Next(s, t, input).value.sessions[t].pc == Refused
    ensures InUse(s.sessions[t].nick, s.members)
    ensures Next(s, t, input).value == With(s, t, s.sessions[t].(pc := Refused))
  {
    var at := s.sessions[t].pc.at;
    assert s.members[at] in s.members && s.members[at].nick == s.sessions[t].nick;
  }

  /** Every run can go on so that a nick that has been entered is answered: it is accepted exactly if no member has it
      when the lock is free, and then all other members are told; otherwise the client is asked again. */
  lemma NickIsAnswered(run: seq<State>, t: nat) returns (more: seq<State>, free: State)
    requires IsRun(run) && t < |run[|run| - 1].sessions| && run[|run| - 1].sessions[t].pc == WantCheck
    ensures IsRun(run + more) && run + more != []
    ensures var s, s' := run[|run| - 1], (run + more)[|run + more| - 1];
            && Leads(s, free) && free.owner == None && |free.sessions| == |s.sessions|
            && free.sessions[t] == s.sessions[t].(out := free.sessions[t].out)
            && if InUse(s.sessions[t].nick, free.members) then
                 s' == With(free, t, free.sessions[t].(pc := Prompt,
                                                       out := free.sessions[t].out
                                                              + ["Error: This nick is already in use."]))
               else s' == Joined(free, t)
  {
    hide Leads, Invariant, InUse, Joined;
    RunKeepsInvariant(run);
    var s := run[|run| - 1];
    HolderKnows(s, t);
    free := LockIsFree(s, t);
    var s';
    if InUse(s.sessions[t].nick, free.members) {
      s' := NickIsRefused(free, t);
    } else {
      s' := NickIsAccepted(free, t);
    }
    LeadsOn(s, free, s');
    more := RunFollows(run, s');
  }

  /** A client can connect at any time, and is asked for its nick and answered. */
  lemma NewcomerIsAnswered(run: seq<State>, nick: string) returns (more: seq<State>, free: State)
    requires IsRun(run)
    ensures IsRun(run + more) && run + more != []
    ensures var s, s', t := run[|run| - 1], (run + more)[|run + more| - 1], |run[|run| - 1].sessions|;
            && Leads(s, free) && free.owner == None && t < |free.sessions| && free.sessions[t].nick == nick
            && if InUse(nick, free.members) then
                 s' == With(free, t, free.sessions[t].(pc := Prompt,
                                                       out := free.sessions[t].out
                                                              + ["Error: This nick is already in use."]))
               else s' == Joined(free, t)
  {
    hide Leads, Invariant, InUse, Joined, IsRun;
    var s1 := NewcomerIsAsked(run, nick);
    var s, t := run[|run| - 1], |run[|run| - 1].sessions|;
    var asked := RunFollows(run, s1);
    var answered;
    answered, free := NickIsAnswered(run + asked, t);
    assert run + asked + answered == run + (asked + answered);
    LeadsOn(s, s1, free);
    more := asked + answered;
  }

  lemma NewcomerIsAsked(run: seq<State>, nick: string) returns (s': State)
    requires IsRun(run)
    ensures run != []
    ensures var s, t := run[|run| - 1], |run[|run| - 1].sessions|;
            && Leads(s, s') && |s'.sessions| == t + 1
            && s'.sessions[t].pc == WantCheck && s'.sessions[t].nick == nick
  {
    hide Leads, Invariant;
    RunKeepsInvariant(run);
    var s, t := run[|run| - 1], |run[|run| - 1].sessions|;
    var s1 := Connect(s);
    Connects(s);
    HolderKnows(s1, t);
    var s2 := LockIsFree(s1, t);
    LeadsOn(s, s1, s2);
    var s3 := ClientIsGreeted(s2, t);
    LeadsOn(s, s2, s3);
    s' := NickIsRead(s3, t, Some(nick));
    LeadsOn(s, s3, s');
  }

  lemma Connects(s: State)
    requires Invariant(s)
    ensures Leads(s, Connect(s)) && Invariant(Connect(s))
  {
    hide Invariant;
    ConnectKeepsInvariant(s);
    var s' := Connect(s);
    assert IsPath(s', [], s') && [s'][1..] == [];
    assert IsPath(s, [s'], s');
  }

  lemma LockIsFree(s: State, t: nat) returns (s': State)
    requires Invariant(s) && t < |s.sessions| && s.owner != Some(t)
    ensures Leads(s, s') && Invariant(s') && s'.owner == None && |s'.sessions| == |s.sessions|
    ensures s'.sessions[t] == s.sessions[t].(out := s'.sessions[t].out)
  {
    hide Leads, Received, Distinct;
    if s.owner.Some? {
      s' := HolderReleases(s, s.owner.value);
    } else {
      LeadsNowhere(s);
      s' := s;
    }
  }

  lemma RunFollows(run: seq<State>, s': State) returns (more: seq<State>)
    requires IsRun(run) && Leads(run[|run| - 1], s')
    ensures IsRun(run + more) && run + more != [] && (run + more)[|run + more| - 1] == s'
  {
    more :| IsPath(run[|run| - 1], more, s');
    RunGoesOn(run, more, s');
  }
}
