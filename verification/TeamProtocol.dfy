/** Host, clients and network together.  A run is any sequence of calls and deliveries at
    non-decreasing times.  The network keeps every frame the host ever signed and may deliver
    any of them at any time, any number of times, or never; a frame the host did not sign fails
    verification.  Input handlers check a frame in one step and commit it in a later one, each
    commit after a check of its own, and any other step may come between. */
module TeamProtocol {
  import opened Base
  import opened TeamRoom

  type SessionId = string

  /** A client's room from accepting an invitation until it leaves. */
  datatype Client = Client(host: Host, member: MemberId, device: DeviceId, nextOutput: nat, nextInput: nat)

  function AcceptInvitation(invitation: Invitation): Result<Client> {
    if invitation.nextInput == 0 || invitation.replayFrom >= U64_MAX then Err(Validation)
    else Ok(Client(invitation.host, invitation.recipientMember, invitation.recipient,
                   invitation.replayFrom + 1, invitation.nextInput))
  }

  /** `authorized`: the local member, device and epoch are still those of the session. */
  function DecryptOutput(c: Client, f: Frame, authorized: bool, verified: bool): (Client, Result<Payload>) {
    if f.room != c.host.room then (c, Err(NotFound))
    else if || f.epoch != c.host.epoch || f.member != c.host.member || f.device != c.host.device
            || f.direction != Output || f.leaseId.Some? || f.leaseGeneration != 0 || f.sequence == 0
    then (c, Err(Validation))
    else if !authorized || !verified then (c, Err(PermissionDenied))
    else if f.sequence != c.nextOutput then (c, Err(Validation))
    else if c.nextOutput >= U64_MAX then (c, Err(Unavailable))
    else (c.(nextOutput := c.nextOutput + 1), Ok(f.payload))
  }

  /** One published output. */
  datatype Entry = Entry(payload: Payload, encrypted: bool)

  /** `from` and `delivered` are the session's history: where it began and what it has shown. */
  datatype Session = Session(client: Client, from: nat, delivered: seq<Payload>)

  /** An input handed to the terminal: under which lease generation, at which sequence number,
      and the frame it came from unless it was given to `receive_input` directly. */
  datatype Accepted = Accepted(generation: nat, sequence: nat, device: DeviceId, payload: Payload, frame: Option<Frame>)

  datatype System = System(
    room: Room,
    log: seq<Entry>,
    sent: set<Frame>,
    invitations: set<Invitation>,
    sessions: map<SessionId, Session>,
    pending: multiset<Frame>,
    accepted: seq<Accepted>,
    issued: set<Issue>)

  /** A lease that was installed: its id, and the generation it was installed at. */
  datatype Issue = Issue(id: LeaseId, generation: nat)

  datatype Caller = Caller(host: bool, who: Option<Membership>)

  datatype Event =
    | JoinRoom(device: DeviceId, caller: Caller)
    | Invite(device: DeviceId, caller: Caller, sealing: Sealing)
    | Plain(payload: Payload, host: bool)
    | Encrypted(payload: Payload, bytes: nat, host: bool)
    | Replay(device: DeviceId, caller: Caller, after: nat)
    | Grant(device: DeviceId, caller: Caller, seconds: nat, id: LeaseId, wall: Instant)
    | ApplyOnline(lease: Lease, caller: Caller, wall: Instant)
    | Remove(device: DeviceId, host: bool)
    | Revoke(host: bool)
    | Status
    | CloseRoom(host: bool)
    | CloseTerminal
    | CloseAll
    | Accept(session: SessionId, invitation: Invitation)
    | Deliver(session: SessionId, frame: Frame, authorized: bool)
    | Leave(session: SessionId)
    | Check(frame: Frame, caller: Caller)
    | Commit(frame: Frame, caller: Caller)
    | DirectInput(device: DeviceId, caller: Caller, leaseId: LeaseId, sequence: nat, payload: Payload)

  function Start(host: Host, role: Role): System {
    System(NewRoom(host, role), [], {}, {}, map[], multiset{}, [], {})
  }

  /** Records the lease of a new generation. */
  function Installed(s: System, room: Room): System {
    if room.leaseGeneration > s.room.leaseGeneration && room.lease.Some? then
      var lease := room.lease.value.lease;
      s.(room := room, issued := s.issued + {Issue(lease.id, lease.generation)})
    else s.(room := room)
  }

  function Received(session: Session, f: Frame, authorized: bool, verified: bool): Session {
    var (client, answer) := DecryptOutput(session.client, f, authorized, verified);
    if answer.Ok? then session.(client := client, delivered := session.delivered + [answer.value])
    else session.(client := client)
  }

  function Delivered(s: System, id: SessionId, f: Frame, authorized: bool): System {
    if id !in s.sessions then s
    else
      s.(sessions := s.sessions[id := Received(s.sessions[id], f, authorized, f in s.sent)])
  }

  function Committed(
    s: System, device: DeviceId, caller: Caller, leaseId: LeaseId, sequence: nat, payload: Payload,
    frame: Option<Frame>, now: Instant): System
  {
    var (room, answer) := CommitInput(s.room, device, caller.who, caller.host, leaseId, sequence, payload, now);
    if answer.Ok? then
      s.(room := room, accepted := s.accepted + [Accepted(room.leaseGeneration, sequence, device, answer.value, frame)])
    else s.(room := room)
  }

  /** A handler that goes on from its check to its commit. */
  function Taken(s: System, f: Frame): System {
    s.(pending := s.pending - multiset{f})
  }

  function Step(s: System, e: Event, now: Instant): System {
    match e
    case JoinRoom(device, caller) => s.(room := Join(s.room, device, caller.who, caller.host, now).0)
    case Invite(device, caller, sealing) =>
      var (room, answer) := CreateInvitation(s.room, device, caller.who, caller.host, sealing, now);
      s.(room := room, invitations := s.invitations + (if answer.Ok? then {answer.value} else {}))
    case Plain(payload, host) =>
      var (room, answer) := PublishPlain(s.room, payload, host);
      s.(room := room, log := s.log + (if answer.Ok? then [Entry(payload, false)] else []))
    case Encrypted(payload, bytes, host) =>
      var (room, answer) := PublishEncrypted(s.room, payload, bytes, host, now);
      s.(room := room, log := s.log + (if answer.Ok? then [Entry(payload, true)] else []),
         sent := s.sent + (if answer.Ok? then {answer.value} else {}))
    case Replay(device, caller, after) =>
      s.(room := ReplayOutput(s.room, device, caller.who, caller.host, after, now).0)
    case Grant(device, caller, seconds, id, wall) =>
      Installed(s, GrantControl(s.room, device, caller.who, caller.host, seconds, id, wall, now).0)
    case ApplyOnline(lease, caller, wall) =>
      Installed(s, ApplyLease(s.room, lease, caller.who, caller.host, wall, now).0)
    case Remove(device, host) => s.(room := RemoveParticipant(s.room, device, host, now).0)
    case Revoke(host) => s.(room := RevokeControl(s.room, host).0)
    case Status => s.(room := Expire(s.room, now))
    case CloseRoom(host) => s.(room := CloseBy(s.room, host).0)
    case CloseTerminal => s.(room := if s.room.active then Close(s.room) else s.room)
    case CloseAll => s.(room := Close(s.room))
    case Accept(session, invitation) =>
      if invitation !in s.invitations || session in s.sessions || AcceptInvitation(invitation).Err? then s
      else s.(sessions := s.sessions[session :=
                Session(AcceptInvitation(invitation).value, invitation.replayFrom, [])])
    case Deliver(session, frame, authorized) => Delivered(s, session, frame, authorized)
    case Leave(session) => s.(sessions := s.sessions - {session})
    case Check(frame, caller) =>
      var (room, answer) := CheckInput(s.room, frame, caller.who, caller.host, now);
      s.(room := room, pending := s.pending + (if answer.Ok? then multiset{frame} else multiset{}))
    case Commit(frame, caller) =>
      if frame !in s.pending || frame.leaseId.None? then s
      else
        Committed(Taken(s, frame), frame.device, caller, frame.leaseId.value, frame.sequence, frame.payload,
                  Some(frame), now)
    case DirectInput(device, caller, leaseId, sequence, payload) =>
      Committed(s, device, caller, leaseId, sequence, payload, None, now)
  }

  datatype Timed = Timed(event: Event, now: Instant)

  /** Times never go back and encoded sizes are sizes of real buffers. */
  predicate WellTimed(events: seq<Timed>, start: Instant) {
    && (forall i :: 0 <= i < |events| ==> start <= events[i].now)
    && (forall i, j :: 0 <= i <= j < |events| ==> events[i].now <= events[j].now)
    && (forall i :: 0 <= i < |events| && events[i].event.Encrypted? ==> events[i].event.bytes <= ISIZE_MAX)
  }

  function Run(s: System, events: seq<Timed>): System {
    if events == [] then s
    else
      var last := events[|events| - 1];
      Step(Run(s, events[..|events| - 1]), last.event, last.now)
  }

  function Clock(events: seq<Timed>, start: Instant): Instant {
    if events == [] then start else events[|events| - 1].now
  }

  /** What the run was at an earlier point. */
  function At(s: System, events: seq<Timed>, n: nat): System {
    Run(s, if n <= |events| then events[..n] else events)
  }

  /** What every step keeps is kept. */
  lemma {:induction false} Kept(p: nat -> bool, from: nat, n: nat)
    requires from <= n && p(from)
    requires forall i: nat :: from <= i < n && p(i) ==> p(i + 1)
    ensures p(n)
    decreases n
  {
    if from < n {
      Kept(p, from, n - 1);
    }
  }

  lemma RunGrows(s: System, events: seq<Timed>, n: nat)
    requires n < |events|
    ensures At(s, events, n + 1) == Step(At(s, events, n), events[n].event, events[n].now)
  {
    assert events[..n + 1][..n] == events[..n];
  }

  // ---- the rooms of a run -----------------------------------------------------

  predicate OnLeaseSide(e: Event) {
    e.Grant? || e.ApplyOnline? || e.Remove?
  }

  predicate OnInputSide(e: Event) {
    e.Check? || e.Commit? || e.DirectInput?
  }

  lemma LeaseStepKeepsRoomInv(s: System, e: Event, now: Instant)
    requires RoomInv(s.room, now) && OnLeaseSide(e)
    ensures RoomInv(Step(s, e, now).room, now)
    ensures Quiet(s.room, Step(s, e, now).room) && Fenced(s.room, Step(s, e, now).room)
  {
    match e
    case Grant(device, caller, seconds, id, wall) =>
      GrantKeepsInv(s.room, device, caller.who, caller.host, seconds, id, wall, now);
    case ApplyOnline(lease, caller, wall) =>
      ApplyKeepsInv(s.room, lease, caller.who, caller.host, wall, now);
    case Remove(device, host) => RemoveKeepsInv(s.room, device, host, now);
  }

  lemma CommittedKeepsRoomInv(
    s: System, device: DeviceId, caller: Caller, leaseId: LeaseId, sequence: nat, payload: Payload,
    frame: Option<Frame>, now: Instant)
    requires RoomInv(s.room, now)
    ensures var t := Committed(s, device, caller, leaseId, sequence, payload, frame, now);
            RoomInv(t.room, now) && Calm(s.room, t.room)
  {
    CommitKeepsInv(s.room, device, caller.who, caller.host, leaseId, sequence, payload, now);
  }

  lemma InputStepKeepsRoomInv(s: System, e: Event, now: Instant)
    requires RoomInv(s.room, now) && OnInputSide(e)
    ensures RoomInv(Step(s, e, now).room, now)
    ensures Calm(s.room, Step(s, e, now).room)
  {
    match e
    case Check(frame, caller) => CheckKeepsInv(s.room, frame, caller.who, caller.host, now);
    case Commit(f, caller) =>
      if f.leaseId.Some? {
        CommittedKeepsRoomInv(Taken(s, f), f.device, caller, f.leaseId.value, f.sequence, f.payload, Some(f), now);
      }
    case DirectInput(device, caller, leaseId, sequence, payload) =>
      CommittedKeepsRoomInv(s, device, caller, leaseId, sequence, payload, None, now);
  }

  predicate OnAdmissionSide(e: Event) {
    e.JoinRoom? || e.Invite?
  }

  lemma AdmissionStepKeepsRoomInv(s: System, e: Event, now: Instant)
    requires RoomInv(s.room, now) && OnAdmissionSide(e)
    ensures RoomInv(Step(s, e, now).room, now)
    ensures Calm(s.room, Step(s, e, now).room)
  {
    if e.JoinRoom? {
      JoinKeepsInv(s.room, e.device, e.caller.who, e.caller.host, now);
    } else {
      InvitationKeepsInv(s.room, e.device, e.caller.who, e.caller.host, e.sealing, now);
    }
  }

  predicate OnPublishingSide(e: Event) {
    e.Plain? || e.Encrypted?
  }

  lemma PublishingStepKeepsRoomInv(s: System, e: Event, now: Instant)
    requires RoomInv(s.room, now) && OnPublishingSide(e)
    requires e.Encrypted? ==> e.bytes <= ISIZE_MAX
    ensures RoomInv(Step(s, e, now).room, now) && Fenced(s.room, Step(s, e, now).room)
    ensures Step(s, e, now).room.leaseGeneration == s.room.leaseGeneration
  {
    if e.Plain? {
      PublishKeepsInv(s.room, e.payload, 0, e.host, now);
    } else {
      PublishKeepsInv(s.room, e.payload, e.bytes, e.host, now);
    }
  }

  predicate OnAnotherSide(e: Event) {
    !OnLeaseSide(e) && !OnInputSide(e) && !OnAdmissionSide(e) && !OnPublishingSide(e)
  }

  lemma ClosingKeepsRoomInv(r: Room, now: Instant)
    requires RoomInv(r, now)
    ensures RoomInv(Close(r), now) && Calm(r, Close(r))
    ensures RoomInv(Expire(r, now), now) && Calm(r, Expire(r, now))
    ensures RoomInv(RevokeControl(r, true).0, now) && Calm(r, RevokeControl(r, true).0)
  {
  }

  lemma AnotherStepKeepsRoomInv(s: System, e: Event, now: Instant)
    requires RoomInv(s.room, now) && OnAnotherSide(e)
    ensures RoomInv(Step(s, e, now).room, now)
    ensures Calm(s.room, Step(s, e, now).room)
  {
    if e.Replay? {
      ReplayKeepsInv(s.room, e.device, e.caller.who, e.caller.host, e.after, now);
    } else {
      ClosingKeepsRoomInv(s.room, now);
      RestOfTheSteps(s, e, now);
    }
  }

  lemma RestOfTheSteps(s: System, e: Event, now: Instant)
    requires OnAnotherSide(e) && !e.Replay?
    ensures Step(s, e, now).room in {s.room, Close(s.room), Expire(s.room, now), RevokeControl(s.room, true).0}
  {
  }

  lemma StepKeepsRoomInv(s: System, e: Event, now: Instant)
    requires RoomInv(s.room, now)
    requires e.Encrypted? ==> e.bytes <= ISIZE_MAX
    ensures RoomInv(Step(s, e, now).room, now)
    ensures !e.Plain? && !e.Encrypted? ==> Quiet(s.room, Step(s, e, now).room)
    ensures Fenced(s.room, Step(s, e, now).room)
    ensures !OnLeaseSide(e) ==> Step(s, e, now).room.leaseGeneration == s.room.leaseGeneration
  {
    if OnLeaseSide(e) {
      LeaseStepKeepsRoomInv(s, e, now);
    } else if OnInputSide(e) {
      InputStepKeepsRoomInv(s, e, now);
    } else if OnAdmissionSide(e) {
      AdmissionStepKeepsRoomInv(s, e, now);
    } else if OnPublishingSide(e) {
      PublishingStepKeepsRoomInv(s, e, now);
    } else {
      AnotherStepKeepsRoomInv(s, e, now);
    }
  }

  lemma {:induction false} RoomsOfARun(host: Host, role: Role, events: seq<Timed>, start: Instant)
    requires WellTimed(events, start)
    ensures RoomInv(Run(Start(host, role), events).room, Clock(events, start))
    ensures start <= Clock(events, start)
  {
    if events != [] {
      var before := events[..|events| - 1];
      RoomsOfARun(host, role, before, start);
      var last := events[|events| - 1];
      StepKeepsRoomInv(Run(Start(host, role), before), last.event, last.now);
    }
  }

  // ---- output: every session shows exactly the published log ------------------

  function Payloads(log: seq<Entry>): (payloads: seq<Payload>)
    ensures |payloads| == |log|
    ensures forall i :: 0 <= i < |log| ==> payloads[i] == log[i].payload
  {
    seq(|log|, i requires 0 <= i < |log| => log[i].payload)
  }

  /** From here on the log is encrypted throughout. */
  predicate EncryptedFrom(log: seq<Entry>, from: int) {
    0 <= from <= |log| && forall i :: from <= i < |log| ==> log[i].encrypted
  }

  predicate FrameOfLog(host: Host, log: seq<Entry>, f: Frame) {
    && 1 <= f.sequence <= |log|
    && f == HostFrame(host, f.sequence, log[f.sequence - 1].payload)
  }

  predicate SentInv(host: Host, log: seq<Entry>, sent: set<Frame>) {
    forall f :: f in sent ==> FrameOfLog(host, log, f)
  }

  predicate WindowSent(replay: seq<StoredFrame>, sent: set<Frame>) {
    forall i :: 0 <= i < |replay| ==> replay[i].frame in sent
  }

  predicate InvitationsInv(host: Host, log: seq<Entry>, invitations: set<Invitation>) {
    forall i :: i in invitations ==> i.host == host && EncryptedFrom(log, i.replayFrom)
  }

  predicate SessionInv(host: Host, log: seq<Entry>, session: Session) {
    && session.client.host == host
    && EncryptedFrom(log, session.from)
    && session.from + |session.delivered| <= |log|
    && session.client.nextOutput == session.from + |session.delivered| + 1
    && session.delivered == Payloads(log[session.from..session.from + |session.delivered|])
  }

  predicate SessionsInv(host: Host, log: seq<Entry>, sessions: map<SessionId, Session>) {
    forall id :: id in sessions ==> SessionInv(host, log, sessions[id])
  }

  predicate DeliveryInv(s: System) {
    && s.room.nextOutput == |s.log| + 1
    && (!s.room.encrypted ==> s.invitations == {} && s.sessions == map[])
    && SentInv(s.room.host, s.log, s.sent)
    && WindowSent(s.room.replay, s.sent)
    && EncryptedFrom(s.log, |s.log| - |s.room.replay|)
    && InvitationsInv(s.room.host, s.log, s.invitations)
    && SessionsInv(s.room.host, s.log, s.sessions)
  }

  lemma QuietKeepsDelivery(s: System, s': System)
    requires DeliveryInv(s) && Quiet(s.room, s'.room)
    requires s'.log == s.log && s'.sent == s.sent
    requires s'.invitations == s.invitations && s'.sessions == s.sessions
    ensures DeliveryInv(s')
  {
  }

  lemma LongerLogKeepsSessions(host: Host, log: seq<Entry>, entry: Entry, sessions: map<SessionId, Session>)
    requires SessionsInv(host, log, sessions)
    requires entry.encrypted || sessions == map[]
    ensures SessionsInv(host, log + [entry], sessions)
  {
    forall id | id in sessions ensures SessionInv(host, log + [entry], sessions[id]) {
      assert SessionInv(host, log, sessions[id]);
      var x := sessions[id];
      assert (log + [entry])[x.from..x.from + |x.delivered|] == log[x.from..x.from + |x.delivered|];
    }
  }

  lemma PublishedWindow(s: System, payload: Payload, bytes: nat, now: Instant)
    requires RoomInv(s.room, now) && DeliveryInv(s) && bytes <= ISIZE_MAX
    requires PublishEncrypted(s.room, payload, bytes, true, now).1.Ok?
    ensures var (room, answer) := PublishEncrypted(s.room, payload, bytes, true, now);
            && room.host == s.room.host && room.encrypted && room.nextOutput == s.room.nextOutput + 1
            && |room.replay| <= |s.room.replay| + 1
            && answer.value == HostFrame(s.room.host, s.room.nextOutput, payload)
            && WindowSent(room.replay, s.sent + {answer.value})
  {
    StoringKeepsTheBooks(s.room, payload, bytes, now);
    PruneKeepsSuffix(Stored(s.room, payload, bytes, now), now);
  }

  lemma EncryptedKeepsDelivery(s: System, e: Event, now: Instant)
    requires RoomInv(s.room, now) && DeliveryInv(s)
    requires e.Encrypted? && e.bytes <= ISIZE_MAX
    ensures DeliveryInv(Step(s, e, now))
  {
    assert s.log + [] == s.log && s.sent + {} == s.sent;
    if PublishEncrypted(s.room, e.payload, e.bytes, e.host, now).1.Ok? {
      PublishedWindow(s, e.payload, e.bytes, now);
      LongerLogKeepsSessions(s.room.host, s.log, Entry(e.payload, true), s.sessions);
    }
  }

  lemma PlainKeepsDelivery(s: System, e: Event, now: Instant)
    requires RoomInv(s.room, now) && DeliveryInv(s) && e.Plain?
    ensures DeliveryInv(Step(s, e, now))
  {
    assert s.log + [] == s.log;
    if PublishPlain(s.room, e.payload, e.host).1.Ok? {
      LongerLogKeepsSessions(s.room.host, s.log, Entry(e.payload, false), s.sessions);
    }
  }

  lemma InviteKeepsDelivery(s: System, device: DeviceId, caller: Caller, sealing: Sealing, now: Instant)
    requires RoomInv(s.room, now) && DeliveryInv(s)
    ensures DeliveryInv(Step(s, Invite(device, caller, sealing), now))
  {
    InvitationKeepsInv(s.room, device, caller.who, caller.host, sealing, now);
    var (room, answer) := CreateInvitation(s.room, device, caller.who, caller.host, sealing, now);
    QuietKeepsDelivery(s, s.(room := room));
    if answer.Ok? {
      InvitationStartsAtTheWindow(s.room, device, caller.who, caller.host, sealing, now);
    } else {
      assert s.invitations + {} == s.invitations;
    }
  }

  lemma DeliverKeepsSession(host: Host, log: seq<Entry>, sent: set<Frame>, session: Session, f: Frame, authorized: bool)
    requires SentInv(host, log, sent) && SessionInv(host, log, session)
    ensures SessionInv(host, log, Received(session, f, authorized, f in sent))
  {
    if DecryptOutput(session.client, f, authorized, f in sent).1.Ok? {
      assert FrameOfLog(host, log, f);
      var n := session.from + |session.delivered|;
      assert log[session.from..n + 1] == log[session.from..n] + [log[n]];
    }
  }

  lemma SessionStepsKeepDelivery(s: System, e: Event, now: Instant)
    requires DeliveryInv(s)
    requires e.Accept? || e.Deliver? || e.Leave?
    ensures DeliveryInv(Step(s, e, now))
  {
    if e.Deliver? && e.session in s.sessions {
      DeliverKeepsSession(s.room.host, s.log, s.sent, s.sessions[e.session], e.frame, e.authorized);
    }
  }

  predicate SameOutput(s: System, t: System) {
    t.log == s.log && t.sent == s.sent && t.invitations == s.invitations && t.sessions == s.sessions
  }

  lemma InputStepsLeaveTheOutputAlone(s: System, e: Event, now: Instant)
    requires OnInputSide(e)
    ensures SameOutput(s, Step(s, e, now))
  {
    if e.Commit? {
      var f := e.frame;
      if f.leaseId.Some? {
        CommittedLeavesTheOutputAlone(
          Taken(s, f), f.device, e.caller, f.leaseId.value, f.sequence, f.payload, Some(f), now);
      }
    } else if e.DirectInput? {
      CommittedLeavesTheOutputAlone(s, e.device, e.caller, e.leaseId, e.sequence, e.payload, None, now);
    }
  }

  lemma OtherStepsLeaveTheOutputAlone(s: System, e: Event, now: Instant)
    requires !e.Plain? && !e.Encrypted? && !e.Invite? && !e.Accept? && !e.Deliver? && !e.Leave?
    ensures SameOutput(s, Step(s, e, now))
  {
    if OnInputSide(e) {
      InputStepsLeaveTheOutputAlone(s, e, now);
    }
  }

  lemma CommittedLeavesTheOutputAlone(
    s: System, device: DeviceId, caller: Caller, leaseId: LeaseId, sequence: nat, payload: Payload,
    frame: Option<Frame>, now: Instant)
    ensures SameOutput(s, Committed(s, device, caller, leaseId, sequence, payload, frame, now))
  {
  }

  lemma StepKeepsDelivery(s: System, e: Event, now: Instant)
    requires RoomInv(s.room, now) && DeliveryInv(s)
    requires e.Encrypted? ==> e.bytes <= ISIZE_MAX
    ensures DeliveryInv(Step(s, e, now))
  {
    if e.Plain? {
      PlainKeepsDelivery(s, e, now);
    } else if e.Encrypted? {
      EncryptedKeepsDelivery(s, e, now);
    } else if e.Invite? {
      InviteKeepsDelivery(s, e.device, e.caller, e.sealing, now);
    } else if e.Accept? || e.Deliver? || e.Leave? {
      SessionStepsKeepDelivery(s, e, now);
    } else {
      OtherStepsLeaveTheOutputAlone(s, e, now);
      StepKeepsRoomInv(s, e, now);
      QuietKeepsDelivery(s, Step(s, e, now));
    }
  }

  lemma {:induction false} DeliveryOfARun(host: Host, role: Role, events: seq<Timed>, start: Instant)
    requires WellTimed(events, start)
    ensures DeliveryInv(Run(Start(host, role), events))
  {
    if events != [] {
      var before := events[..|events| - 1];
      DeliveryOfARun(host, role, before, start);
      RoomsOfARun(host, role, before, start);
      var last := events[|events| - 1];
      StepKeepsDelivery(Run(Start(host, role), before), last.event, last.now);
    }
  }

  /** In every run, whatever the network loses, repeats, reorders or replays, what a session has
      shown is the host's log from where its invitation starts up to its own next sequence number:
      in order, nothing missing, nothing twice; and everything from that start on is encrypted. */
  lemma SessionsShowExactlyTheLog(host: Host, role: Role, events: seq<Timed>, start: Instant, id: SessionId)
    requires WellTimed(events, start)
    requires id in Run(Start(host, role), events).sessions
    ensures var s := Run(Start(host, role), events);
            var session := s.sessions[id];
            && session.from < session.client.nextOutput <= s.room.nextOutput == |s.log| + 1
            && session.delivered == Payloads(s.log[session.from..session.client.nextOutput - 1])
            && EncryptedFrom(s.log, session.from)
  {
    DeliveryOfARun(host, role, events, start);
    var s := Run(Start(host, role), events);
    assert SessionInv(s.room.host, s.log, s.sessions[id]);
  }

  predicate PlainThenEncrypted(room: Room, log: seq<Entry>) {
    && (forall i :: 0 <= i < |log| && log[i].encrypted ==> room.encrypted)
    && (forall i, j :: 0 <= i < j < |log| && log[i].encrypted ==> log[j].encrypted)
  }

  lemma StepKeepsPlainFirst(s: System, e: Event, now: Instant)
    requires RoomInv(s.room, now) && PlainThenEncrypted(s.room, s.log)
    requires e.Encrypted? ==> e.bytes <= ISIZE_MAX
    ensures PlainThenEncrypted(Step(s, e, now).room, Step(s, e, now).log)
    ensures s.room.encrypted ==> Step(s, e, now).room.encrypted
  {
    if e.Encrypted? {
      assert s.log + [] == s.log;
      if PublishEncrypted(s.room, e.payload, e.bytes, e.host, now).1.Ok? {
        PruneKeepsEncryption(Stored(s.room, e.payload, e.bytes, now), now);
      }
    } else if e.Plain? {
      assert s.log + [] == s.log;
    } else {
      StepKeepsRoomInv(s, e, now);
      OtherStepsKeepTheLog(s, e, now);
    }
  }

  lemma PruneKeepsEncryption(r: Room, now: Instant)
    ensures Prune(r, now).encrypted == r.encrypted
  {
  }

  lemma OtherStepsKeepTheLog(s: System, e: Event, now: Instant)
    requires !e.Plain? && !e.Encrypted?
    ensures Step(s, e, now).log == s.log
  {
  }

  /** Plain output stops for good once encryption is on: in every run the log is plain up to some
      point and encrypted from there, and an invited room publishes nothing plain any more. */
  lemma {:induction false} PlainOutputStopsForGood(host: Host, role: Role, events: seq<Timed>, start: Instant)
    requires WellTimed(events, start)
    ensures var s := Run(Start(host, role), events);
            && PlainThenEncrypted(s.room, s.log)
            && (s.room.encrypted ==> forall payload, authorized :: PublishPlain(s.room, payload, authorized).1.Err?)
  {
    if events != [] {
      var before := events[..|events| - 1];
      PlainOutputStopsForGood(host, role, before, start);
      RoomsOfARun(host, role, before, start);
      StepKeepsPlainFirst(Run(Start(host, role), before), events[|events| - 1].event, events[|events| - 1].now);
    }
  }

  /** Hand the frames to the session one after the other. */
  function DeliverAll(s: System, id: SessionId, frames: seq<Frame>): System {
    if frames == [] then s
    else Delivered(DeliverAll(s, id, frames[..|frames| - 1]), id, frames[|frames| - 1], true)
  }

  lemma NextFrameIsShown(s: System, id: SessionId, f: Frame)
    requires DeliveryInv(s) && s.room.nextOutput <= U64_MAX && id in s.sessions
    requires f in s.sent && f.sequence == s.sessions[id].client.nextOutput
    ensures var t := Delivered(s, id, f, true);
            && t == s.(sessions := t.sessions) && DeliveryInv(t) && id in t.sessions
            && t.sessions[id].from == s.sessions[id].from
            && t.sessions[id].client.nextOutput == s.sessions[id].client.nextOutput + 1
  {
    assert FrameOfLog(s.room.host, s.log, f);
    assert SessionInv(s.room.host, s.log, s.sessions[id]);
    SessionStepsKeepDelivery(s, Deliver(id, f, true), 0);
  }

  lemma {:induction false} DeliverInOrder(s: System, id: SessionId, frames: seq<Frame>)
    requires DeliveryInv(s) && s.room.nextOutput <= U64_MAX && id in s.sessions
    requires forall i :: 0 <= i < |frames| ==>
               frames[i] in s.sent && frames[i].sequence == s.sessions[id].client.nextOutput + i
    ensures var t := DeliverAll(s, id, frames);
            && t == s.(sessions := t.sessions) && DeliveryInv(t) && id in t.sessions
            && t.sessions[id].from == s.sessions[id].from
            && t.sessions[id].client.nextOutput == s.sessions[id].client.nextOutput + |frames|
  {
    if frames != [] {
      DeliverInOrder(s, id, frames[..|frames| - 1]);
      NextFrameIsShown(DeliverAll(s, id, frames[..|frames| - 1]), id, frames[|frames| - 1]);
    }
  }

  /** The host's answer to a session that asks for everything after the last frame it has. */
  function AskReplay(s: System, id: SessionId, device: DeviceId, who: Membership, now: Instant)
    : (System, Result<seq<Frame>>)
    requires id in s.sessions
  {
    var (room, answer) := ReplayOutput(
      s.room, device, Some(who), true, SaturatingSub(s.sessions[id].client.nextOutput, 1), now);
    (s.(room := room), answer)
  }

  lemma ReplayAnswersFromTheNextFrame(s: System, id: SessionId, device: DeviceId, who: Membership, now: Instant)
    requires RoomInv(s.room, now) && DeliveryInv(s) && id in s.sessions
    requires AskReplay(s, id, device, who, now).1.Ok?
    ensures var (t, answer) := AskReplay(s, id, device, who, now);
            && DeliveryInv(t) && t == s.(room := t.room) && t.room.nextOutput == s.room.nextOutput
            && s.sessions[id].client.nextOutput + |answer.value| == s.room.nextOutput
            && forall i :: 0 <= i < |answer.value| ==>
                 answer.value[i] in t.sent && answer.value[i].sequence == s.sessions[id].client.nextOutput + i
  {
    assert SessionInv(s.room.host, s.log, s.sessions[id]);
    var after := s.sessions[id].client.nextOutput - 1;
    ReplayReturnsExactlyTheRest(s.room, device, who, after, now);
    ReplayKeepsInv(s.room, device, Some(who), true, after, now);
    QuietKeepsDelivery(s, AskReplay(s, id, device, who, now).0);
  }

  lemma CaughtUpShowsTheWholeLog(s: System, id: SessionId)
    requires DeliveryInv(s) && id in s.sessions && s.sessions[id].client.nextOutput == s.room.nextOutput
    ensures s.sessions[id].from <= |s.log|
    ensures s.sessions[id].delivered == Payloads(s.log[s.sessions[id].from..])
  {
    assert SessionInv(s.room.host, s.log, s.sessions[id]);
    assert s.log[s.sessions[id].from..] == s.log[s.sessions[id].from..|s.log|];
  }

  /** A client that asks for everything after the last frame it has and feeds the answer back
      reaches the host's latest frame and has then shown the whole log from its start. */
  lemma ReplayCatchesUp(s: System, id: SessionId, device: DeviceId, who: Membership, now: Instant)
    requires RoomInv(s.room, now) && DeliveryInv(s) && id in s.sessions
    requires AskReplay(s, id, device, who, now).1.Ok?
    ensures var (asked, answer) := AskReplay(s, id, device, who, now);
            var t := DeliverAll(asked, id, answer.value);
            && id in t.sessions
            && t.sessions[id].client.nextOutput == s.room.nextOutput
            && t.sessions[id].from == s.sessions[id].from <= |s.log|
            && t.sessions[id].delivered == Payloads(s.log[s.sessions[id].from..])
  {
    ReplayAnswersFromTheNextFrame(s, id, device, who, now);
    var (asked, answer) := AskReplay(s, id, device, who, now);
    DeliverInOrder(asked, id, answer.value);
    CaughtUpShowsTheWholeLog(DeliverAll(asked, id, answer.value), id);
  }

  /** Whoever is invited is offered exactly that invitation, and accepting it begins a session. */
  lemma InvitedMayBegin(
    s: System, device: DeviceId, who: Membership, session: SessionId, now: Instant)
    requires RoomInv(s.room, now) && MayEnter(s.room, device, Some(who), true)
    requires session !in s.sessions && s.room.nextOutput < U64_MAX
    ensures var t := Step(s, Invite(device, Caller(true, Some(who)), Sealed), now);
            var invitation := CreateInvitation(s.room, device, Some(who), true, Sealed, now).1.value;
            var u := Step(t, Accept(session, invitation), now);
            && t.invitations == s.invitations + {invitation} && session in u.sessions
            && u.sessions[session] == Session(
                 Client(s.room.host, who.member, device, invitation.replayFrom + 1, invitation.nextInput),
                 invitation.replayFrom, [])
  {
    InvitationSaysExactly(s.room, device, Some(who), true, Sealed, now);
    InvitationKeepsInv(s.room, device, Some(who), true, Sealed, now);
  }

  /** What the host publishes is logged and sent, and shown by every session that is up to date and gets
      the frame. */
  lemma PublishedIsShown(s: System, id: SessionId, payload: Payload, bytes: nat, now: Instant)
    requires RoomInv(s.room, now) && DeliveryInv(s) && bytes <= ISIZE_MAX
    requires s.room.active && ValidPayload(payload) && s.room.nextOutput < U64_MAX
    requires id in s.sessions && s.sessions[id].client.nextOutput == s.room.nextOutput
    ensures var frame := HostFrame(s.room.host, s.room.nextOutput, payload);
            var t := Step(s, Encrypted(payload, bytes, true), now);
            var u := Step(t, Deliver(id, frame, true), now);
            && t.log == s.log + [Entry(payload, true)] && t.sent == s.sent + {frame}
            && id in u.sessions && u.sessions[id].delivered == s.sessions[id].delivered + [payload]
  {
    assert SessionInv(s.room.host, s.log, s.sessions[id]);
  }

  // ---- input: fencing ---------------------------------------------------------

  predicate Below(a: Accepted, b: Accepted) {
    a.generation < b.generation || (a.generation == b.generation && a.sequence < b.sequence)
  }

  /** Accepted inputs climb strictly, one device per lease generation. */
  predicate Climbing(accepted: seq<Accepted>) {
    forall i, j :: 0 <= i < j < |accepted| ==>
      && Below(accepted[i], accepted[j])
      && (accepted[i].generation == accepted[j].generation ==> accepted[i].device == accepted[j].device)
  }

  /** The room will accept nothing at or below what it has accepted. */
  predicate FenceInv(room: Room, accepted: seq<Accepted>) {
    && Climbing(accepted)
    && forall i :: 0 <= i < |accepted| ==>
         && accepted[i].generation <= room.leaseGeneration
         && (room.lease.Some? && accepted[i].generation == room.leaseGeneration ==>
               var d := room.lease.value.lease.device;
               accepted[i].device == d && d in room.participants
               && accepted[i].sequence < room.participants[d].nextInput)
  }

  lemma FencedKeepsFence(r: Room, r': Room, accepted: seq<Accepted>)
    requires FenceInv(r, accepted) && Fenced(r, r')
    ensures FenceInv(r', accepted)
  {
  }

  lemma CommitKeepsFence(
    s: System, device: DeviceId, caller: Caller, leaseId: LeaseId, sequence: nat, payload: Payload,
    frame: Option<Frame>, now: Instant)
    requires RoomInv(s.room, now) && FenceInv(s.room, s.accepted)
    ensures var t := Committed(s, device, caller, leaseId, sequence, payload, frame, now);
            FenceInv(t.room, t.accepted)
  {
    CommitKeepsInv(s.room, device, caller.who, caller.host, leaseId, sequence, payload, now);
    FencedKeepsFence(s.room, Committed(s, device, caller, leaseId, sequence, payload, frame, now).room, s.accepted);
  }

  lemma InputStepKeepsFence(s: System, e: Event, now: Instant)
    requires RoomInv(s.room, now) && FenceInv(s.room, s.accepted) && (e.Commit? || e.DirectInput?)
    ensures FenceInv(Step(s, e, now).room, Step(s, e, now).accepted)
  {
    if e.Commit? {
      var f := e.frame;
      if f.leaseId.Some? {
        CommitKeepsFence(Taken(s, f), f.device, e.caller, f.leaseId.value, f.sequence, f.payload, Some(f), now);
      }
    } else {
      CommitKeepsFence(s, e.device, e.caller, e.leaseId, e.sequence, e.payload, None, now);
    }
  }

  lemma StepKeepsFence(s: System, e: Event, now: Instant)
    requires RoomInv(s.room, now) && FenceInv(s.room, s.accepted)
    requires e.Encrypted? ==> e.bytes <= ISIZE_MAX
    ensures FenceInv(Step(s, e, now).room, Step(s, e, now).accepted)
  {
    if e.Commit? || e.DirectInput? {
      InputStepKeepsFence(s, e, now);
    } else {
      StepKeepsRoomInv(s, e, now);
      OnlyInputIsAccepted(s, e, now);
      FencedKeepsFence(s.room, Step(s, e, now).room, s.accepted);
    }
  }

  lemma OnlyInputIsAccepted(s: System, e: Event, now: Instant)
    requires !e.Commit? && !e.DirectInput?
    ensures Step(s, e, now).accepted == s.accepted
  {
  }

  /** Under every interleaving of checks, commits, grants, online leases, revocations, expiry,
      removals and rejoins, each accepted input has a (lease generation, sequence) pair strictly
      above all earlier ones, although rejoining restarts a device's sequence at 1; and within
      one generation only the device that holds the lease is heard. */
  lemma {:induction false} AcceptedInputsClimb(host: Host, role: Role, events: seq<Timed>, start: Instant)
    requires WellTimed(events, start)
    ensures Climbing(Run(Start(host, role), events).accepted)
    ensures FenceInv(Run(Start(host, role), events).room, Run(Start(host, role), events).accepted)
  {
    if events != [] {
      var before := events[..|events| - 1];
      AcceptedInputsClimb(host, role, before, start);
      RoomsOfARun(host, role, before, start);
      var last := events[|events| - 1];
      StepKeepsFence(Run(Start(host, role), before), last.event, last.now);
    }
  }

  // ---- input: no gap ----------------------------------------------------------

  /** Within one lease generation sequence numbers go up one by one. */
  predicate Gapless(accepted: seq<Accepted>) {
    forall i :: 0 <= i < |accepted| - 1 && accepted[i].generation == accepted[i + 1].generation ==>
                  accepted[i + 1].sequence == accepted[i].sequence + 1
  }

  /** The holder's next sequence number follows its last accepted one. */
  predicate HolderIsNext(room: Room, accepted: seq<Accepted>) {
    room.lease.Some? && accepted != [] && accepted[|accepted| - 1].generation == room.leaseGeneration ==>
      var d := room.lease.value.lease.device;
      d in room.participants && room.participants[d].nextInput == accepted[|accepted| - 1].sequence + 1
  }

  /** A lease that is still held is the same, and its holder's next sequence number as well. */
  predicate Steady(r: Room, r': Room) {
    && r.leaseGeneration <= r'.leaseGeneration
    && (r'.lease.Some? && r'.leaseGeneration == r.leaseGeneration ==>
          && r.lease == r'.lease
          && var d := r.lease.value.lease.device;
             d in r.participants && d in r'.participants
             && r.participants[d].nextInput == r'.participants[d].nextInput)
  }

  lemma SteadyKeepsTheHolder(r: Room, r': Room, accepted: seq<Accepted>)
    requires Steady(r, r') && FenceInv(r, accepted) && HolderIsNext(r, accepted)
    ensures HolderIsNext(r', accepted)
  {
    if accepted != [] {
      assert accepted[|accepted| - 1].generation <= r.leaseGeneration;
    }
  }

  lemma LeaseStepIsSteady(s: System, e: Event, now: Instant)
    requires RoomInv(s.room, now) && OnLeaseSide(e)
    ensures Steady(s.room, Step(s, e, now).room)
  {
  }

  lemma AdmittingIsSteady(r: Room, device: DeviceId, who: Membership)
    requires LeaseInv(r)
    ensures var a := Admit(r, device, who);
            Steady(r, a) && a.lease == r.lease && a.leaseGeneration == r.leaseGeneration
  {
  }

  lemma JoiningIsSteady(r: Room, device: DeviceId, who: Option<Membership>, host: bool, now: Instant)
    requires LeaseInv(r)
    ensures Steady(r, Join(r, device, who, host, now).0)
  {
    if who.Some? { AdmittingIsSteady(r, device, who.value); }
  }

  lemma InvitingIsSteady(
    r: Room, device: DeviceId, who: Option<Membership>, host: bool, sealing: Sealing, now: Instant)
    requires LeaseInv(r)
    ensures Steady(r, CreateInvitation(r, device, who, host, sealing, now).0)
  {
    if who.Some? {
      AdmittingIsSteady(r, device, who.value);
      PruningKeepsLeaseAndDevices(Admit(r, device, who.value), now);
    }
  }

  lemma PruningKeepsLeaseAndDevices(r: Room, now: Instant)
    ensures var p := Prune(r, now);
            p.lease == r.lease && p.leaseGeneration == r.leaseGeneration && p.participants == r.participants
  {
  }

  lemma AdmissionStepIsSteady(s: System, e: Event, now: Instant)
    requires RoomInv(s.room, now) && OnAdmissionSide(e)
    ensures Steady(s.room, Step(s, e, now).room)
  {
    if e.JoinRoom? {
      JoiningIsSteady(s.room, e.device, e.caller.who, e.caller.host, now);
    } else {
      InvitingIsSteady(s.room, e.device, e.caller.who, e.caller.host, e.sealing, now);
    }
  }

  lemma OtherStepIsSteady(s: System, e: Event, now: Instant)
    requires RoomInv(s.room, now) && (OnPublishingSide(e) || OnAnotherSide(e) || e.Check?)
    ensures Steady(s.room, Step(s, e, now).room)
  {
  }

  lemma CommitTakesTheNext(
    r: Room, device: DeviceId, who: Option<Membership>, host: bool, leaseId: LeaseId, sequence: nat,
    payload: Payload, now: Instant)
    requires LeaseInv(r)
    ensures var (room, answer) := CommitInput(r, device, who, host, leaseId, sequence, payload, now);
            if answer.Err? then Steady(r, room)
            else && room.lease == r.lease && room.leaseGeneration == r.leaseGeneration
                 && r.lease.Some? && r.lease.value.lease.device == device && device in r.participants
                 && r.participants[device].nextInput == sequence
                 && device in room.participants && room.participants[device].nextInput == sequence + 1
  {
  }

  lemma CommittedIsNext(
    s: System, device: DeviceId, caller: Caller, leaseId: LeaseId, sequence: nat, payload: Payload,
    frame: Option<Frame>, now: Instant)
    requires RoomInv(s.room, now) && FenceInv(s.room, s.accepted)
    requires Gapless(s.accepted) && HolderIsNext(s.room, s.accepted)
    ensures var t := Committed(s, device, caller, leaseId, sequence, payload, frame, now);
            Gapless(t.accepted) && HolderIsNext(t.room, t.accepted)
  {
    CommitTakesTheNext(s.room, device, caller.who, caller.host, leaseId, sequence, payload, now);
    var (room, answer) := CommitInput(s.room, device, caller.who, caller.host, leaseId, sequence, payload, now);
    if answer.Err? {
      SteadyKeepsTheHolder(s.room, room, s.accepted);
    }
  }

  lemma StepKeepsGapless(s: System, e: Event, now: Instant)
    requires RoomInv(s.room, now) && FenceInv(s.room, s.accepted)
    requires Gapless(s.accepted) && HolderIsNext(s.room, s.accepted)
    ensures Gapless(Step(s, e, now).accepted) && HolderIsNext(Step(s, e, now).room, Step(s, e, now).accepted)
  {
    if e.Commit? {
      var f := e.frame;
      if f.leaseId.Some? {
        CommittedIsNext(Taken(s, f), f.device, e.caller, f.leaseId.value, f.sequence, f.payload, Some(f), now);
      }
    } else if e.DirectInput? {
      CommittedIsNext(s, e.device, e.caller, e.leaseId, e.sequence, e.payload, None, now);
    } else {
      if OnLeaseSide(e) {
        LeaseStepIsSteady(s, e, now);
      } else if OnAdmissionSide(e) {
        AdmissionStepIsSteady(s, e, now);
      } else {
        OtherStepIsSteady(s, e, now);
      }
      OnlyInputIsAccepted(s, e, now);
      SteadyKeepsTheHolder(s.room, Step(s, e, now).room, s.accepted);
    }
  }

  /** No input of a lease's holder is skipped: in every run, within one generation, each accepted input
      has the sequence number after the one before. */
  lemma {:induction false} AcceptedInputsHaveNoGaps(host: Host, role: Role, events: seq<Timed>, start: Instant)
    requires WellTimed(events, start)
    ensures Gapless(Run(Start(host, role), events).accepted)
    ensures HolderIsNext(Run(Start(host, role), events).room, Run(Start(host, role), events).accepted)
  {
    if events != [] {
      var before := events[..|events| - 1];
      AcceptedInputsHaveNoGaps(host, role, before, start);
      AcceptedInputsClimb(host, role, before, start);
      RoomsOfARun(host, role, before, start);
      StepKeepsGapless(Run(Start(host, role), before), events[|events| - 1].event, events[|events| - 1].now);
    }
  }

  // ---- input: no frame twice --------------------------------------------------

  predicate IssuedInv(room: Room, issued: set<Issue>) {
    room.lease.Some? ==> Issue(room.lease.value.lease.id, room.lease.value.lease.generation) in issued
  }

  predicate NamesAnIssue(f: Frame, issued: set<Issue>) {
    f.leaseId.Some? && Issue(f.leaseId.value, f.leaseGeneration) in issued
  }

  predicate PendingInv(pending: multiset<Frame>, issued: set<Issue>) {
    forall f :: f in pending ==> NamesAnIssue(f, issued)
  }

  /** What was accepted from a frame is what the frame says, under a lease of the frame's id. */
  predicate FromItsFrame(a: Accepted, issued: set<Issue>) {
    a.frame.Some? ==>
      var f := a.frame.value;
      && NamesAnIssue(f, issued) && Issue(f.leaseId.value, a.generation) in issued
      && a.sequence == f.sequence && a.device == f.device && a.payload == f.payload && ValidPayload(f.payload)
  }

  predicate AcceptedInv(accepted: seq<Accepted>, issued: set<Issue>) {
    forall i :: 0 <= i < |accepted| ==> FromItsFrame(accepted[i], issued)
  }

  predicate SourceInv(s: System) {
    IssuedInv(s.room, s.issued) && PendingInv(s.pending, s.issued) && AcceptedInv(s.accepted, s.issued)
  }

  lemma InstalledKeepsSource(s: System, room: Room)
    requires LeaseInv(room) && SourceInv(s) && Fenced(s.room, room)
    ensures SourceInv(Installed(s, room))
  {
    var t := Installed(s, room);
    forall f | f in t.pending ensures NamesAnIssue(f, t.issued) {
      assert NamesAnIssue(f, s.issued);
    }
    forall i | 0 <= i < |t.accepted| ensures FromItsFrame(t.accepted[i], t.issued) {
      assert FromItsFrame(s.accepted[i], s.issued);
    }
  }

  lemma LeaseStepKeepsSource(s: System, e: Event, now: Instant)
    requires RoomInv(s.room, now) && SourceInv(s) && OnLeaseSide(e)
    ensures SourceInv(Step(s, e, now))
  {
    match e
    case Grant(device, caller, seconds, id, wall) =>
      GrantKeepsInv(s.room, device, caller.who, caller.host, seconds, id, wall, now);
      InstalledKeepsSource(s, GrantControl(s.room, device, caller.who, caller.host, seconds, id, wall, now).0);
    case ApplyOnline(lease, caller, wall) =>
      ApplyKeepsInv(s.room, lease, caller.who, caller.host, wall, now);
      InstalledKeepsSource(s, ApplyLease(s.room, lease, caller.who, caller.host, wall, now).0);
    case Remove(device, host) =>
  }

  lemma OtherStepsIssueNothing(s: System, e: Event, now: Instant)
    requires !OnLeaseSide(e)
    ensures Step(s, e, now).issued == s.issued
  {
  }

  lemma OtherStepsAcceptNothing(s: System, e: Event, now: Instant)
    requires !e.Commit? && !e.DirectInput? && !e.Check?
    ensures Step(s, e, now).accepted == s.accepted && Step(s, e, now).pending == s.pending
  {
  }

  lemma CheckKeepsSource(s: System, f: Frame, caller: Caller, now: Instant)
    requires RoomInv(s.room, now) && SourceInv(s)
    ensures SourceInv(Step(s, Check(f, caller), now))
  {
    CheckKeepsInv(s.room, f, caller.who, caller.host, now);
  }

  lemma CommittedKeepsSource(
    s: System, device: DeviceId, caller: Caller, leaseId: LeaseId, sequence: nat, payload: Payload,
    frame: Option<Frame>, now: Instant)
    requires RoomInv(s.room, now) && SourceInv(s)
    requires frame.Some? ==>
               var f := frame.value;
               && NamesAnIssue(f, s.issued) && f.leaseId.value == leaseId
               && f.device == device && f.sequence == sequence && f.payload == payload
    ensures SourceInv(Committed(s, device, caller, leaseId, sequence, payload, frame, now))
  {
    CommitKeepsInv(s.room, device, caller.who, caller.host, leaseId, sequence, payload, now);
  }

  lemma InputStepKeepsSource(s: System, e: Event, now: Instant)
    requires RoomInv(s.room, now) && SourceInv(s) && (e.Commit? || e.DirectInput?)
    ensures SourceInv(Step(s, e, now))
  {
    if e.Commit? {
      var f := e.frame;
      if f in s.pending {
        assert NamesAnIssue(f, s.issued);
        CommittedKeepsSource(Taken(s, f), f.device, e.caller, f.leaseId.value, f.sequence, f.payload, Some(f), now);
      }
    } else {
      CommittedKeepsSource(s, e.device, e.caller, e.leaseId, e.sequence, e.payload, None, now);
    }
  }

  lemma OtherStepKeepsSource(s: System, e: Event, now: Instant)
    requires RoomInv(s.room, now) && SourceInv(s) && !OnLeaseSide(e) && !OnInputSide(e)
    requires e.Encrypted? ==> e.bytes <= ISIZE_MAX
    ensures SourceInv(Step(s, e, now))
  {
    StepKeepsRoomInv(s, e, now);
    OtherStepsIssueNothing(s, e, now);
    OtherStepsAcceptNothing(s, e, now);
  }

  lemma StepKeepsSource(s: System, e: Event, now: Instant)
    requires RoomInv(s.room, now) && SourceInv(s)
    requires e.Encrypted? ==> e.bytes <= ISIZE_MAX
    ensures SourceInv(Step(s, e, now))
  {
    if OnLeaseSide(e) {
      LeaseStepKeepsSource(s, e, now);
    } else if e.Check? {
      CheckKeepsSource(s, e.frame, e.caller, now);
    } else if OnInputSide(e) {
      InputStepKeepsSource(s, e, now);
    } else {
      OtherStepKeepsSource(s, e, now);
    }
  }

  lemma {:induction false} SourcesOfARun(host: Host, role: Role, events: seq<Timed>, start: Instant)
    requires WellTimed(events, start)
    ensures SourceInv(Run(Start(host, role), events))
  {
    if events != [] {
      var before := events[..|events| - 1];
      var last := events[|events| - 1];
      RoomsOfARun(host, role, before, start);
      SourcesOfARun(host, role, before, start);
      StepKeepsSource(Run(Start(host, role), before), last.event, last.now);
    }
  }

  /** In every run, what is handed to the terminal from a frame is what the frame says; and a frame
      that is handed over again comes under a later lease that carries the same id. */
  lemma TwiceOnlyUnderALaterLease(host: Host, role: Role, events: seq<Timed>, start: Instant, i: nat, j: nat)
    requires WellTimed(events, start)
    requires i < j < |Run(Start(host, role), events).accepted|
    requires var accepted := Run(Start(host, role), events).accepted;
             accepted[i].frame.Some? && accepted[i].frame == accepted[j].frame
    ensures var s := Run(Start(host, role), events);
            var f := s.accepted[i].frame.value;
            && f.leaseId.Some? && s.accepted[i].generation < s.accepted[j].generation
            && Issue(f.leaseId.value, s.accepted[i].generation) in s.issued
            && Issue(f.leaseId.value, s.accepted[j].generation) in s.issued
            && s.accepted[i].payload == s.accepted[j].payload == f.payload
  {
    SourcesOfARun(host, role, events, start);
    AcceptedInputsClimb(host, role, events, start);
    var s := Run(Start(host, role), events);
    assert FromItsFrame(s.accepted[i], s.issued) && FromItsFrame(s.accepted[j], s.issued);
    assert Below(s.accepted[i], s.accepted[j]);
  }

  /** If no later lease carries the id that an accepted frame names, the frame is not handed over
      again, although it may have passed the check many times before its first commit and its
      device may leave, rejoin and start again at sequence 1. */
  lemma NoFrameCommitsTwice(host: Host, role: Role, events: seq<Timed>, start: Instant, i: nat)
    requires WellTimed(events, start)
    requires i < |Run(Start(host, role), events).accepted|
    requires var s := Run(Start(host, role), events);
             && s.accepted[i].frame.Some? && s.accepted[i].frame.value.leaseId.Some?
             && forall generation :: generation > s.accepted[i].generation ==>
                  Issue(s.accepted[i].frame.value.leaseId.value, generation) !in s.issued
    ensures var accepted := Run(Start(host, role), events).accepted;
            forall j :: i < j < |accepted| ==> accepted[j].frame != accepted[i].frame
  {
    var accepted := Run(Start(host, role), events).accepted;
    forall j | i < j < |accepted| ensures accepted[j].frame != accepted[i].frame {
      if accepted[j].frame == accepted[i].frame {
        TwiceOnlyUnderALaterLease(host, role, events, start, i, j);
      }
    }
  }

  predicate IssuedOnce(issued: set<Issue>, id: LeaseId) {
    forall x, y :: x in issued && y in issued && x.id == id && y.id == id ==> x == y
  }

  /** Under a lease id that was issued once, a frame is accepted at the generation it was signed for. */
  lemma AcceptedAsSigned(host: Host, role: Role, events: seq<Timed>, start: Instant, i: nat)
    requires WellTimed(events, start)
    requires i < |Run(Start(host, role), events).accepted|
    requires var s := Run(Start(host, role), events);
             && s.accepted[i].frame.Some? && s.accepted[i].frame.value.leaseId.Some?
             && IssuedOnce(s.issued, s.accepted[i].frame.value.leaseId.value)
    ensures var a := Run(Start(host, role), events).accepted[i];
            var f := a.frame.value;
            a == Accepted(f.leaseGeneration, f.sequence, f.device, f.payload, Some(f))
  {
    SourcesOfARun(host, role, events, start);
    var s := Run(Start(host, role), events);
    assert FromItsFrame(s.accepted[i], s.issued);
  }

  /** What a commit of a checked frame asks of the room and the caller. */
  predicate Admits(room: Room, f: Frame, caller: Caller, now: Instant)
    requires f.leaseId.Some?
  {
    MayInput(room, f.device, caller.who, caller.host, f.leaseId.value, f.sequence, now) && f.sequence < U64_MAX
  }

  lemma CommitsExactly(s: System, f: Frame, caller: Caller, now: Instant)
    requires f in s.pending && f.leaseId.Some? && ValidPayload(f.payload)
    ensures Step(s, Commit(f, caller), now).accepted ==
              if Admits(s.room, f, caller, now)
              then s.accepted + [Accepted(s.room.leaseGeneration, f.sequence, f.device, f.payload, Some(f))]
              else s.accepted
  {
  }

  /** Exactly when a checked frame that was accepted before is accepted again: its device has been
      given a later lease under the same id and stands at the frame's sequence number again. */
  lemma CommitsAgainIff(
    host: Host, role: Role, events: seq<Timed>, start: Instant, f: Frame, caller: Caller, now: Instant, i: nat)
    requires WellTimed(events, start) && Clock(events, start) <= now
    requires var s := Run(Start(host, role), events);
             f in s.pending && i < |s.accepted| && s.accepted[i].frame == Some(f)
    ensures f.leaseId.Some?
    ensures var s := Run(Start(host, role), events);
            Step(s, Commit(f, caller), now).accepted != s.accepted
            <==> Admits(s.room, f, caller, now) && s.room.lease.value.lease.generation > s.accepted[i].generation
  {
    var s := Run(Start(host, role), events);
    RoomsOfARun(host, role, events, start);
    SourcesOfARun(host, role, events, start);
    AcceptedInputsClimb(host, role, events, start);
    assert FromItsFrame(s.accepted[i], s.issued);
    CommitKeepsFence(Taken(s, f), f.device, caller, f.leaseId.value, f.sequence, f.payload, Some(f), now);
    CommitsExactly(s, f, caller, now);
    var t := Step(s, Commit(f, caller), now);
    if t.accepted != s.accepted {
      assert Below(t.accepted[i], t.accepted[|s.accepted|]);
    }
  }

  lemma RunAppend(s: System, events: seq<Timed>, next: Timed)
    ensures Run(s, events + [next]) == Step(Run(s, events), next.event, next.now)
  {
    assert (events + [next])[..|events|] == events;
  }

  const OPERATOR: Role := Role(true, true)
  const HOST: Host := Host("room", 1, "alice", "desk")
  const BOB: Caller := Caller(true, Some(Membership("bob", OPERATOR)))

  function ReusedLease(generation: nat): Lease {
    Lease("lease", "bob", "laptop", generation, 100 * SECOND)
  }

  function TwiceChecked(): Frame {
    Frame("room", 1, "bob", "laptop", Input, 1, Some("lease"), 1, "x")
  }

  function JoinAndLease(generation: nat): seq<Timed> {
    [Timed(JoinRoom("laptop", BOB), 0), Timed(ApplyOnline(ReusedLease(generation), BOB, 0), 0)]
  }

  lemma JoinAndLeaseRuns(s: System, events: seq<Timed>, generation: nat)
    ensures Run(s, events + JoinAndLease(generation)) ==
            Step(Step(Run(s, events), JoinRoom("laptop", BOB), 0), ApplyOnline(ReusedLease(generation), BOB, 0), 0)
  {
    var steps := JoinAndLease(generation);
    RunAppend(s, events, steps[0]);
    RunAppend(s, events + [steps[0]], steps[1]);
    assert events + [steps[0]] + [steps[1]] == events + steps;
  }

  /** Bob's laptop joins afresh and is given the reused lease. */
  lemma LeasedAfresh(s: System, generation: nat)
    requires s.room.active && s.room.host == HOST && s.room.leaseGeneration < generation
    requires |s.room.participants| <= 1 && "laptop" !in s.room.participants
    ensures var t := Step(Step(s, JoinRoom("laptop", BOB), 0), ApplyOnline(ReusedLease(generation), BOB, 0), 0);
            && t == s.(room := t.room, issued := t.issued)
            && t.room == s.room.(participants := t.room.participants, leaseGeneration := generation,
                                 lease := t.room.lease)
            && t.room.participants == s.room.participants["laptop" := Participant("bob", OPERATOR, 1)]
            && t.room.lease == Some(HeldLease(ReusedLease(generation), 100 * SECOND))
            && t.issued == s.issued + {Issue("lease", generation)}
  {
    var joined := Step(s, JoinRoom("laptop", BOB), 0);
    var laptop := Participant("bob", OPERATOR, 1);
    assert Admit(s.room, "laptop", BOB.who.value).participants == s.room.participants["laptop" := laptop];
    assert joined.room.participants["laptop"] == laptop;
  }

  /** With the lease held, a handler that has checked the frame commits it. */
  lemma Commits(s: System, generation: nat)
    requires s.room.active && TwiceChecked() in s.pending && s.room.leaseGeneration == generation
    requires "laptop" in s.room.participants && s.room.participants["laptop"] == Participant("bob", OPERATOR, 1)
    requires s.room.lease == Some(HeldLease(ReusedLease(generation), 100 * SECOND))
    ensures var t := Step(s, Commit(TwiceChecked(), BOB), 0);
            && t.accepted == s.accepted + [Accepted(generation, 1, "laptop", "x", Some(TwiceChecked()))]
            && t == s.(room := t.room, accepted := t.accepted, pending := s.pending - multiset{TwiceChecked()})
            && t.room == s.room.(participants := t.room.participants)
            && t.room.participants.Keys == s.room.participants.Keys
  {
  }

  const CHECKED: Timed := Timed(Check(TwiceChecked(), BOB), 0)
  const COMMITTED: Timed := Timed(Commit(TwiceChecked(), BOB), 0)

  lemma Checks(s: System)
    requires s.room.active && s.room.host == HOST && s.room.leaseGeneration == 1
    requires "laptop" in s.room.participants && s.room.participants["laptop"] == Participant("bob", OPERATOR, 1)
    requires s.room.lease == Some(HeldLease(ReusedLease(1), 100 * SECOND))
    ensures Step(s, Check(TwiceChecked(), BOB), 0) == s.(pending := s.pending + multiset{TwiceChecked()})
  {
  }

  /** Two handlers check the frame, and one of them commits it. */
  lemma FirstCommit(s: System)
    requires s == Start(HOST, OPERATOR)
    ensures var t := Run(s, JoinAndLease(1) + [CHECKED] + [CHECKED] + [COMMITTED]);
            && t.room.active && t.room.host == HOST && t.room.leaseGeneration == 1
            && t.room.participants.Keys == {"desk", "laptop"}
            && t.issued == {Issue("lease", 1)} && TwiceChecked() in t.pending
            && t.accepted == [Accepted(1, 1, "laptop", "x", Some(TwiceChecked()))]
  {
    JoinAndLeaseRuns(s, [], 1);
    assert [] + JoinAndLease(1) == JoinAndLease(1);
    LeasedAfresh(s, 1);
    var leased := Run(s, JoinAndLease(1));
    RunAppend(s, JoinAndLease(1), CHECKED);
    Checks(leased);
    RunAppend(s, JoinAndLease(1) + [CHECKED], CHECKED);
    var checked := Step(leased, Check(TwiceChecked(), BOB), 0);
    Checks(checked);
    RunAppend(s, JoinAndLease(1) + [CHECKED] + [CHECKED], COMMITTED);
    Commits(Step(checked, Check(TwiceChecked(), BOB), 0), 1);
  }

  lemma SecondCommit(s: System)
    requires s.room.active && s.room.host == HOST && s.room.leaseGeneration == 1
    requires s.room.participants.Keys == {"desk", "laptop"}
    requires TwiceChecked() in s.pending
    ensures var joined := Step(Step(s, Remove("laptop", true), 0), JoinRoom("laptop", BOB), 0);
            var t := Step(Step(joined, ApplyOnline(ReusedLease(2), BOB, 0), 0), Commit(TwiceChecked(), BOB), 0);
            t.accepted == s.accepted + [Accepted(2, 1, "laptop", "x", Some(TwiceChecked()))]
  {
    var removed := Step(s, Remove("laptop", true), 0);
    assert removed.room.participants.Keys == {"desk"};
    LeasedAfresh(removed, 2);
    Commits(Step(Step(removed, JoinRoom("laptop", BOB), 0), ApplyOnline(ReusedLease(2), BOB, 0), 0), 2);
  }

  /** It happens when the relay reuses an id: a frame that two handlers have checked is committed by
      one, its device is removed, joins anew and is given a later lease under the same id, and then
      the other handler commits it again. */
  lemma AReusedLeaseIdLetsAFrameCommitTwice() returns (events: seq<Timed>)
    ensures WellTimed(events, 0)
    ensures var s := Run(Start(HOST, OPERATOR), events);
            |s.accepted| == 2 && s.accepted[0].frame.Some? && s.accepted[0].frame == s.accepted[1].frame
  {
    var start := Start(HOST, OPERATOR);
    var sent := JoinAndLease(1) + [CHECKED] + [CHECKED] + [COMMITTED];
    var removed := sent + [Timed(Remove("laptop", true), 0)];
    var back := removed + JoinAndLease(2);
    events := back + [COMMITTED];
    FirstCommit(start);
    RunAppend(start, sent, Timed(Remove("laptop", true), 0));
    JoinAndLeaseRuns(start, removed, 2);
    RunAppend(start, back, COMMITTED);
    SecondCommit(Run(start, sent));
  }

  // ---- control lapses ---------------------------------------------------------

  const LONGEST_LEASE: nat := MAX_LEASE_SECONDS * SECOND

  /** No lease outlasts the deadline. */
  predicate LapsesBy(room: Room, deadline: Instant) {
    room.lease.Some? ==> room.lease.value.expiresAt <= deadline
  }

  predicate Installs(e: Event) {
    e.Grant? || e.ApplyOnline?
  }

  /** Only a grant or an online lease extends control, and by five minutes at most. */
  lemma InputKeepsTheLease(
    s: System, device: DeviceId, caller: Caller, leaseId: LeaseId, sequence: nat, payload: Payload,
    frame: Option<Frame>, now: Instant, deadline: Instant)
    requires LapsesBy(s.room, deadline)
    ensures var t := Committed(s, device, caller, leaseId, sequence, payload, frame, now);
            LapsesBy(t.room, deadline) && (now >= deadline ==> t.accepted == s.accepted)
  {
  }

  lemma InstallsForFiveMinutes(s: System, e: Event, now: Instant)
    requires LapsesBy(s.room, now + LONGEST_LEASE) && Installs(e)
    ensures LapsesBy(Step(s, e, now).room, now + LONGEST_LEASE)
  {
  }

  lemma OtherStepsInstallNothing(s: System, e: Event, now: Instant, deadline: Instant)
    requires LapsesBy(s.room, deadline) && !Installs(e)
    ensures LapsesBy(Step(s, e, now).room, deadline)
    ensures now >= deadline ==> Step(s, e, now).accepted == s.accepted
  {
    match e
    case Commit(f, caller) =>
      if f.leaseId.Some? {
        InputKeepsTheLease(
          Taken(s, f), f.device, caller, f.leaseId.value, f.sequence, f.payload, Some(f), now, deadline);
      }
    case DirectInput(device, caller, leaseId, sequence, payload) =>
      InputKeepsTheLease(s, device, caller, leaseId, sequence, payload, None, now, deadline);
    case _ => OtherStepsAcceptNothingNew(s, e, now);
  }

  lemma OtherStepsAcceptNothingNew(s: System, e: Event, now: Instant)
    requires !e.Commit? && !e.DirectInput? && !Installs(e)
    ensures Step(s, e, now).accepted == s.accepted
    ensures Step(s, e, now).room.lease == s.room.lease || Step(s, e, now).room.lease == None
  {
    if !e.Check? {
      OtherStepsAcceptNothing(s, e, now);
      if e.Invite? || e.Plain? || e.Encrypted? || e.Replay? {
        OutputKeepsTheLease(s, e, now);
      }
    }
  }

  lemma OutputKeepsTheLease(s: System, e: Event, now: Instant)
    requires e.Invite? || e.Plain? || e.Encrypted? || e.Replay?
    ensures Step(s, e, now).room.lease == s.room.lease
  {
    match e
    case Invite(device, caller, sealing) =>
      InvitingKeepsTheLease(s.room, device, caller.who, caller.host, sealing, now);
    case Encrypted(payload, bytes, host) => PublishingKeepsTheLease(s.room, payload, bytes, host, now);
    case Replay(device, caller, after) => ReplayingKeepsTheLease(s.room, device, caller.who, caller.host, after, now);
    case Plain(_, _) =>
  }

  lemma InvitingKeepsTheLease(
    r: Room, device: DeviceId, who: Option<Membership>, host: bool, sealing: Sealing, now: Instant)
    ensures CreateInvitation(r, device, who, host, sealing, now).0.lease == r.lease
  {
  }

  lemma PublishingKeepsTheLease(r: Room, payload: Payload, bytes: nat, host: bool, now: Instant)
    ensures PublishEncrypted(r, payload, bytes, host, now).0.lease == r.lease
  {
  }

  lemma ReplayingKeepsTheLease(
    r: Room, device: DeviceId, who: Option<Membership>, host: bool, after: nat, now: Instant)
    ensures ReplayOutput(r, device, who, host, after, now).0.lease == r.lease
  {
  }

  lemma {:induction false} LeasesOfARun(host: Host, role: Role, events: seq<Timed>, start: Instant)
    requires WellTimed(events, start)
    ensures LapsesBy(Run(Start(host, role), events).room, Clock(events, start) + LONGEST_LEASE)
  {
    if events != [] {
      var before := events[..|events| - 1];
      var last := events[|events| - 1];
      LeasesOfARun(host, role, before, start);
      if Installs(last.event) {
        InstallsForFiveMinutes(Run(Start(host, role), before), last.event, last.now);
      } else {
        OtherStepsInstallNothing(Run(Start(host, role), before), last.event, last.now, last.now + LONGEST_LEASE);
      }
    }
  }

  lemma OneStepCloserToTheDeadline(s: System, events: seq<Timed>, n: nat, deadline: Instant)
    requires n < |events| && LapsesBy(At(s, events, n).room, deadline) && !Installs(events[n].event)
    ensures LapsesBy(At(s, events, n + 1).room, deadline)
    ensures events[n].now >= deadline ==> At(s, events, n + 1).accepted == At(s, events, n).accepted
  {
    RunGrows(s, events, n);
    OtherStepsInstallNothing(At(s, events, n), events[n].event, events[n].now, deadline);
  }

  /** Steps that install nothing let the lease lapse at its time, whatever they do. */
  lemma TheDeadlineStays(s: System, events: seq<Timed>, from: nat, n: nat, deadline: Instant)
    requires from <= n <= |events| && LapsesBy(At(s, events, from).room, deadline)
    requires forall i :: from <= i < n ==> !Installs(events[i].event)
    ensures LapsesBy(At(s, events, n).room, deadline)
  {
    var p := (i: nat) => LapsesBy(At(s, events, i).room, deadline);
    forall i: nat | from <= i < n && p(i) ensures p(i + 1) {
      OneStepCloserToTheDeadline(s, events, i, deadline);
    }
    Kept(p, from, n);
  }

  predicate Lapsed(s: System, accepted: seq<Accepted>, deadline: Instant) {
    LapsesBy(s.room, deadline) && s.accepted == accepted
  }

  lemma OneStepAfterTheDeadline(s: System, events: seq<Timed>, i: nat, accepted: seq<Accepted>, deadline: Instant)
    requires i < |events| && Lapsed(At(s, events, i), accepted, deadline)
    requires !Installs(events[i].event) && events[i].now >= deadline
    ensures Lapsed(At(s, events, i + 1), accepted, deadline)
  {
    OneStepCloserToTheDeadline(s, events, i, deadline);
  }

  lemma NothingAfterTheDeadline(
    s: System, events: seq<Timed>, late: nat, n: nat, accepted: seq<Accepted>, deadline: Instant)
    requires late <= n <= |events| && Lapsed(At(s, events, late), accepted, deadline)
    requires forall i :: late <= i < n ==> !Installs(events[i].event) && events[i].now >= deadline
    ensures Lapsed(At(s, events, n), accepted, deadline)
  {
    var p := (i: nat) => Lapsed(At(s, events, i), accepted, deadline);
    forall i: nat | late <= i < n && p(i) ensures p(i + 1) {
      OneStepAfterTheDeadline(s, events, i, accepted, deadline);
    }
    Kept(p, late, n);
  }

  /** Control lapses: whatever goes on in the room meanwhile, from five minutes after the last grant or
      online lease on no input is accepted, whichever checks passed before.  `installed` is the number
      of events up to that last one, and `late` the number of those that came in time. */
  lemma ControlLapses(
    host: Host, role: Role, events: seq<Timed>, start: Instant, installed: nat, late: nat)
    requires WellTimed(events, start) && installed <= late <= |events|
    requires forall i :: installed <= i < |events| ==> !Installs(events[i].event)
    requires forall i :: late <= i < |events| ==>
               events[i].now >= Clock(events[..installed], start) + LONGEST_LEASE
    ensures Run(Start(host, role), events).accepted == Run(Start(host, role), events[..late]).accepted
  {
    var s := Start(host, role);
    var deadline := Clock(events[..installed], start) + LONGEST_LEASE;
    LeasesOfARun(host, role, events[..installed], start);
    TheDeadlineStays(s, events, installed, late, deadline);
    NothingAfterTheDeadline(s, events, late, |events|, At(s, events, late).accepted, deadline);
    assert events[..|events|] == events;
  }

  // ---- control is kept --------------------------------------------------------

  /** The step takes the lease from its holder: a newer lease, a revocation, the holder's removal, or
      the end of the room. */
  predicate Displaces(s: System, e: Event, now: Instant) {
    || (Installs(e) && Step(s, e, now).room.leaseGeneration > s.room.leaseGeneration)
    || (e.Revoke? && e.host)
    || (e.CloseRoom? && e.host) || e.CloseTerminal? || e.CloseAll?
    || (e.Remove? && e.host && s.room.lease.Some? && s.room.lease.value.lease.device == e.device)
  }

  predicate StillHolds(room: Room, held: HeldLease) {
    room.active && room.lease == Some(held)
  }

  lemma InputLeavesTheHolder(s: System, e: Event, now: Instant, held: HeldLease)
    requires StillHolds(s.room, held) && now < held.expiresAt && OnInputSide(e)
    ensures StillHolds(Step(s, e, now).room, held)
  {
    match e
    case Check(f, caller) => RefusedInputChangesNothing(s.room, f, caller.who, caller.host, "", now);
    case Commit(f, caller) =>
      if f.leaseId.Some? {
        CommittedLeavesTheHolder(
          Taken(s, f), f.device, caller, f.leaseId.value, f.sequence, f.payload, Some(f), now, held);
      }
    case DirectInput(device, caller, leaseId, sequence, payload) =>
      CommittedLeavesTheHolder(s, device, caller, leaseId, sequence, payload, None, now, held);
  }

  lemma CommittedLeavesTheHolder(
    s: System, device: DeviceId, caller: Caller, leaseId: LeaseId, sequence: nat, payload: Payload,
    frame: Option<Frame>, now: Instant, held: HeldLease)
    requires StillHolds(s.room, held) && now < held.expiresAt
    ensures StillHolds(Committed(s, device, caller, leaseId, sequence, payload, frame, now).room, held)
  {
  }

  lemma LeaseStepLeavesTheHolder(s: System, e: Event, now: Instant, held: HeldLease)
    requires StillHolds(s.room, held) && now < held.expiresAt && OnLeaseSide(e) && !Displaces(s, e, now)
    ensures StillHolds(Step(s, e, now).room, held)
  {
  }

  lemma AdmissionLeavesTheHolder(s: System, e: Event, now: Instant, held: HeldLease)
    requires StillHolds(s.room, held) && now < held.expiresAt && OnAdmissionSide(e)
    ensures StillHolds(Step(s, e, now).room, held)
  {
    if e.Invite? {
      InvitingLeavesTheHolder(s.room, e.device, e.caller.who, e.caller.host, e.sealing, now);
    }
  }

  lemma InvitingLeavesTheHolder(
    r: Room, device: DeviceId, who: Option<Membership>, host: bool, sealing: Sealing, now: Instant)
    ensures var room := CreateInvitation(r, device, who, host, sealing, now).0;
            room.lease == r.lease && room.active == r.active
  {
  }

  lemma PublishingLeavesTheHolder(s: System, e: Event, now: Instant, held: HeldLease)
    requires StillHolds(s.room, held) && OnPublishingSide(e)
    ensures StillHolds(Step(s, e, now).room, held)
  {
  }

  lemma AnotherStepLeavesTheHolder(s: System, e: Event, now: Instant, held: HeldLease)
    requires StillHolds(s.room, held) && now < held.expiresAt && OnAnotherSide(e) && !Displaces(s, e, now)
    ensures StillHolds(Step(s, e, now).room, held)
  {
  }

  lemma StepLeavesTheHolder(s: System, e: Event, now: Instant, held: HeldLease)
    requires StillHolds(s.room, held) && now < held.expiresAt && !Displaces(s, e, now)
    ensures StillHolds(Step(s, e, now).room, held)
  {
    if OnLeaseSide(e) {
      LeaseStepLeavesTheHolder(s, e, now, held);
    } else if OnInputSide(e) {
      InputLeavesTheHolder(s, e, now, held);
    } else if OnAdmissionSide(e) {
      AdmissionLeavesTheHolder(s, e, now, held);
    } else if OnPublishingSide(e) {
      PublishingLeavesTheHolder(s, e, now, held);
    } else {
      AnotherStepLeavesTheHolder(s, e, now, held);
    }
  }

  /** Step `i` comes in time and does not take the lease. */
  predicate Undisturbed(s: System, events: seq<Timed>, i: nat, held: HeldLease) {
    i < |events| && events[i].now < held.expiresAt && !Displaces(At(s, events, i), events[i].event, events[i].now)
  }

  predicate HoldsAt(s: System, events: seq<Timed>, i: nat, held: HeldLease) {
    StillHolds(At(s, events, i).room, held)
  }

  lemma OneStepLeavesTheHolder(s: System, events: seq<Timed>, i: nat, held: HeldLease)
    requires HoldsAt(s, events, i, held) && Undisturbed(s, events, i, held)
    ensures HoldsAt(s, events, i + 1, held)
  {
    RunGrows(s, events, i);
    StepLeavesTheHolder(At(s, events, i), events[i].event, events[i].now, held);
  }

  /** A lease is held until its time is over or something takes it: no refused or repeated frame, no
      joining, publishing or replaying, and no refused grant costs its holder control. */
  lemma AHeldLeaseStays(s: System, events: seq<Timed>, from: nat, n: nat, held: HeldLease)
    requires from <= n && HoldsAt(s, events, from, held)
    requires forall i: nat :: from <= i < n ==> Undisturbed(s, events, i, held)
    ensures HoldsAt(s, events, n, held)
    decreases n
  {
    if from < n {
      AHeldLeaseStays(s, events, from, n - 1, held);
      OneStepLeavesTheHolder(s, events, n - 1, held);
    }
  }

  lemma TheHolderMayInput(room: Room, held: HeldLease, member: Role, payload: Payload, now: Instant)
    requires LeaseInv(room) && StillHolds(room, held) && now < held.expiresAt
    requires member.canControl && ValidPayload(payload)
    ensures held.lease.device in room.participants
    ensures var next := room.participants[held.lease.device].nextInput;
            next < U64_MAX ==>
              CommitInput(room, held.lease.device, Some(Membership(held.lease.member, member)), true, held.lease.id,
                          next, payload, now).1 == Ok(payload)
  {
  }

  /** So until then its holder's next input is accepted. */
  lemma TheHolderIsHeard(
    host: Host, role: Role, events: seq<Timed>, start: Instant, from: nat, held: HeldLease,
    member: Role, payload: Payload, now: Instant)
    requires WellTimed(events, start) && from <= |events| && now < held.expiresAt
    requires HoldsAt(Start(host, role), events, from, held)
    requires forall i: nat :: from <= i < |events| ==> Undisturbed(Start(host, role), events, i, held)
    requires member.canControl && ValidPayload(payload)
    ensures var room := Run(Start(host, role), events).room;
            var d := held.lease.device;
            && d in room.participants
            && (room.participants[d].nextInput < U64_MAX ==>
                  CommitInput(room, d, Some(Membership(held.lease.member, member)), true, held.lease.id,
                              room.participants[d].nextInput, payload, now).1 == Ok(payload))
  {
    var s := Start(host, role);
    AHeldLeaseStays(s, events, from, |events|, held);
    assert events[..|events|] == events;
    RoomsOfARun(host, role, events, start);
    TheHolderMayInput(Run(s, events).room, held, member, payload, now);
  }

  // ---- a removed device -------------------------------------------------------

  predicate LetsIn(e: Event, d: DeviceId) {
    (e.JoinRoom? || e.Invite?) && e.device == d
  }

  lemma InvitingOthers(
    r: Room, device: DeviceId, who: Option<Membership>, host: bool, sealing: Sealing, now: Instant, d: DeviceId)
    requires d !in r.participants && device != d
    ensures d !in CreateInvitation(r, device, who, host, sealing, now).0.participants
  {
  }

  lemma OutputLetsNobodyIn(r: Room, payload: Payload, bytes: nat, host: bool, now: Instant)
    ensures PublishEncrypted(r, payload, bytes, host, now).0.participants == r.participants
  {
  }

  lemma InputLetsNobodyIn(s: System, e: Event, now: Instant, d: DeviceId)
    requires d !in s.room.participants && OnInputSide(e)
    ensures d !in Step(s, e, now).room.participants
  {
    if e.Commit? {
      var f := e.frame;
      if f.leaseId.Some? {
        CommittedLetsNobodyIn(
          Taken(s, f), f.device, e.caller, f.leaseId.value, f.sequence, f.payload, Some(f), now, d);
      }
    } else if e.DirectInput? {
      CommittedLetsNobodyIn(s, e.device, e.caller, e.leaseId, e.sequence, e.payload, None, now, d);
    }
  }

  lemma CommittedLetsNobodyIn(
    s: System, device: DeviceId, caller: Caller, leaseId: LeaseId, sequence: nat, payload: Payload,
    frame: Option<Frame>, now: Instant, d: DeviceId)
    requires d !in s.room.participants
    ensures d !in Committed(s, device, caller, leaseId, sequence, payload, frame, now).room.participants
  {
  }

  lemma OnlyJoiningLetsIn(s: System, e: Event, now: Instant, d: DeviceId)
    requires d !in s.room.participants && !LetsIn(e, d)
    ensures d !in Step(s, e, now).room.participants
  {
    if OnInputSide(e) {
      InputLetsNobodyIn(s, e, now, d);
    } else if e.Invite? {
      InvitingOthers(s.room, e.device, e.caller.who, e.caller.host, e.sealing, now, d);
    } else if e.Encrypted? {
      OutputLetsNobodyIn(s.room, e.payload, e.bytes, e.host, now);
    } else {
      RestLetsNobodyIn(s, e, now, d);
    }
  }

  lemma RestLetsNobodyIn(s: System, e: Event, now: Instant, d: DeviceId)
    requires d !in s.room.participants && !LetsIn(e, d)
    requires !OnInputSide(e) && !e.Invite? && !e.Encrypted?
    ensures d !in Step(s, e, now).room.participants
  {
  }

  lemma OneStepLetsNobodyIn(s: System, events: seq<Timed>, i: nat, d: DeviceId)
    requires i < |events| && d !in At(s, events, i).room.participants && !LetsIn(events[i].event, d)
    ensures d !in At(s, events, i + 1).room.participants
  {
    RunGrows(s, events, i);
    OnlyJoiningLetsIn(At(s, events, i), events[i].event, events[i].now, d);
  }

  lemma OutsidersStayOut(s: System, events: seq<Timed>, from: nat, n: nat, d: DeviceId)
    requires from <= n <= |events| && d !in At(s, events, from).room.participants
    requires forall i :: from <= i < n ==> !LetsIn(events[i].event, d)
    ensures d !in At(s, events, n).room.participants
  {
    var p := (i: nat) => d !in At(s, events, i).room.participants;
    forall i: nat | from <= i < n && p(i) ensures p(i + 1) {
      OneStepLetsNobodyIn(s, events, i, d);
    }
    Kept(p, from, n);
  }

  /** A removed device is neither heard nor answered, by anyone's leave and at any time, until it joins
      or is invited again. */
  lemma ARemovedDeviceStaysOut(s: System, events: seq<Timed>, k: nat, n: nat, d: DeviceId)
    requires k < n <= |events| && events[k].event == Remove(d, true)
    requires d != At(s, events, k).room.host.device
    requires forall i :: k < i < n ==> !LetsIn(events[i].event, d)
    ensures DeafTo(At(s, events, n).room, d)
  {
    RunGrows(s, events, k);
    OutsidersStayOut(s, events, k + 1, n, d);
    NonParticipantsAreNotHeard(At(s, events, n).room, d);
  }

  // ---- a closed room ----------------------------------------------------------

  lemma AClosedRoomAcceptsNoInput(
    r: Room, device: DeviceId, who: Option<Membership>, host: bool, leaseId: LeaseId, sequence: nat,
    payload: Payload, now: Instant)
    requires !r.active
    ensures var (room, answer) := CommitInput(r, device, who, host, leaseId, sequence, payload, now);
            answer.Err? && !room.active
  {
  }

  predicate SilentAfter(s: System, t: System) {
    && !t.room.active && t.log == s.log && t.sent == s.sent
    && t.invitations == s.invitations && t.accepted == s.accepted
  }

  lemma ClosedInputIsSilent(s: System, e: Event, now: Instant)
    requires !s.room.active && OnInputSide(e)
    ensures SilentAfter(s, Step(s, e, now))
  {
    if e.Commit? {
      var f := e.frame;
      if f.leaseId.Some? {
        AClosedRoomAcceptsNoInput(
          s.room, f.device, e.caller.who, e.caller.host, f.leaseId.value, f.sequence, f.payload, now);
      }
    } else if e.DirectInput? {
      AClosedRoomAcceptsNoInput(s.room, e.device, e.caller.who, e.caller.host, e.leaseId, e.sequence, e.payload, now);
    }
  }

  lemma ClosedLeaseIsSilent(s: System, e: Event, now: Instant)
    requires !s.room.active && OnLeaseSide(e)
    ensures SilentAfter(s, Step(s, e, now))
  {
  }

  lemma ClosedOutputIsSilent(s: System, e: Event, now: Instant)
    requires !s.room.active && !OnInputSide(e) && !OnLeaseSide(e)
    ensures SilentAfter(s, Step(s, e, now))
  {
  }

  /** Once closed, a room publishes nothing, invites nobody and accepts no input, for good, although
      an online lease can still be installed in it. */
  lemma {:induction false} AClosedRoomStaysSilent(s: System, events: seq<Timed>)
    requires !s.room.active
    ensures SilentAfter(s, Run(s, events))
  {
    if events != [] {
      var before := Run(s, events[..|events| - 1]);
      var last := events[|events| - 1];
      AClosedRoomStaysSilent(s, events[..|events| - 1]);
      if OnInputSide(last.event) {
        ClosedInputIsSilent(before, last.event, last.now);
      } else if OnLeaseSide(last.event) {
        ClosedLeaseIsSilent(before, last.event, last.now);
      } else {
        ClosedOutputIsSilent(before, last.event, last.now);
      }
    }
  }
}
