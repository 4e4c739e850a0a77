/** The host's side of an encrypted team terminal, as a state machine on values:
    what each manager call does to one room.  Cryptography is ideal: a frame carries
    its plaintext, and whether its signature verifies is decided by the protocol. */
module TeamRoom {
  import opened Base

  type DeviceId = string
  type MemberId = string
  type LeaseId = string
  type RoomId = string
  type Payload = string

  const MAX_PARTICIPANTS := 64
  const MAX_FRAME_BYTES := 64 * 1024
  const MAX_ENVELOPE_BYTES := 128 * 1024
  const SEAL_BYTES := 16
  /** More than the identifiers, nonce and signature around a sealed payload ever take. */
  const HEADER_LIMIT := 40 * 1024
  const MIN_LEASE_SECONDS := 10
  const MAX_LEASE_SECONDS := 5 * 60
  const REPLAY_TTL := 5 * 60 * SECOND
  const MAX_REPLAY_FRAMES := 512
  const MAX_REPLAY_BYTES := 4 * 1024 * 1024

  /** The permissions of a team role that the protocol asks for. */
  datatype Role = Role(canView: bool, canControl: bool)

  /** What the team database says of a device: its active member and role. */
  datatype Membership = Membership(member: MemberId, role: Role)

  datatype Participant = Participant(member: MemberId, role: Role, nextInput: nat)

  datatype Lease = Lease(id: LeaseId, member: MemberId, device: DeviceId, generation: nat, expiry: Instant)

  /** `expiresAt` is on the monotonic clock, `lease.expiry` on the wall clock. */
  datatype HeldLease = HeldLease(lease: Lease, expiresAt: Instant)

  datatype Direction = Output | Input

  datatype Frame = Frame(
    room: RoomId, epoch: int, member: MemberId, device: DeviceId, direction: Direction,
    sequence: nat, leaseId: Option<LeaseId>, leaseGeneration: nat, payload: Payload)

  datatype StoredFrame = StoredFrame(frame: Frame, bytes: nat, createdAt: Instant)

  /** What never changes about a room: its id, its key epoch and who hosts it. */
  datatype Host = Host(room: RoomId, epoch: int, member: MemberId, device: DeviceId)

  datatype Invitation = Invitation(
    host: Host, recipient: DeviceId, recipientMember: MemberId, replayFrom: nat, nextInput: nat)

  datatype Room = Room(
    host: Host, active: bool, participants: map<DeviceId, Participant>, lease: Option<HeldLease>,
    nextOutput: nat, leaseGeneration: nat,
    replay: seq<StoredFrame>, replayBytes: nat, encrypted: bool)

  predicate ValidPayload(payload: Payload) {
    1 <= |payload| <= MAX_FRAME_BYTES
  }

  function NewRoom(host: Host, role: Role): Room {
    Room(host, true, map[host.device := Participant(host.member, role, 1)], None, 1, 0, [], 0, false)
  }

  // ---- replay window ----------------------------------------------------------

  function SumBytes(replay: seq<StoredFrame>): nat {
    if replay == [] then 0 else replay[0].bytes + SumBytes(replay[1..])
  }

  predicate Overdue(replay: seq<StoredFrame>, bytes: nat, now: Instant)
    requires replay != []
  {
    now - replay[0].createdAt > REPLAY_TTL || |replay| > MAX_REPLAY_FRAMES || bytes > MAX_REPLAY_BYTES
  }

  function Prune(r: Room, now: Instant): (p: Room)
    ensures p == r.(replay := p.replay, replayBytes := p.replayBytes)
    decreases |r.replay|
  {
    if r.replay != [] && Overdue(r.replay, r.replayBytes, now) then
      Prune(r.(replay := r.replay[1..], replayBytes := SaturatingSub(r.replayBytes, r.replay[0].bytes)), now)
    else r
  }

  function ReplayFrom(r: Room): nat {
    if r.replay != [] then SaturatingSub(r.replay[0].frame.sequence, 1) else SaturatingSub(r.nextOutput, 1)
  }

  function FramesAfter(replay: seq<StoredFrame>, after: nat): seq<Frame> {
    if replay == [] then []
    else (if replay[0].frame.sequence > after then [replay[0].frame] else []) + FramesAfter(replay[1..], after)
  }

  // ---- the calls --------------------------------------------------------------

  function Expire(r: Room, now: Instant): Room {
    if r.lease.Some? && r.lease.value.expiresAt <= now then r.(lease := None) else r
  }

  /** The participant check shared by `join` and `create_invitation`. */
  function AdmitError(r: Room, device: DeviceId, who: Membership): Option<Error> {
    if device !in r.participants && |r.participants| >= MAX_PARTICIPANTS then Some(Validation)
    else if device in r.participants && r.participants[device].member != who.member then Some(PermissionDenied)
    else None
  }

  function Admit(r: Room, device: DeviceId, who: Membership): Room {
    r.(participants := r.participants[device :=
      if device in r.participants then r.participants[device].(role := who.role)
      else Participant(who.member, who.role, 1)])
  }

  /** The checks before the room is locked: host authority and the device's directory entry. */
  function Gate(r: Room, host: bool, who: Option<Membership>, control: bool): Option<Error> {
    if !host || who.None? then Some(PermissionDenied)
    else if control && !who.value.role.canControl then Some(PermissionDenied)
    else if !control && !who.value.role.canView then Some(PermissionDenied)
    else None
  }

  function Join(r: Room, device: DeviceId, who: Option<Membership>, host: bool, now: Instant): (Room, Result<()>) {
    if !r.active then (r, Err(Unavailable))
    else if Gate(r, host, who, false).Some? then (r, Err(Gate(r, host, who, false).value))
    else if AdmitError(r, device, who.value).Some? then (r, Err(AdmitError(r, device, who.value).value))
    else (Expire(Admit(r, device, who.value), now), Ok(()))
  }

  /** How sealing the room key for the recipient ends. */
  datatype Sealing = Sealed | NoSharedSecret | NoSigningKey

  /** A failure to seal comes after the recipient was admitted and, for a missing signing
      key, after the replay window was pruned; only a sealed invitation turns encryption on. */
  function CreateInvitation(
    r: Room, device: DeviceId, who: Option<Membership>, host: bool, sealing: Sealing, now: Instant)
    : (Room, Result<Invitation>)
  {
    if Gate(r, host, who, false).Some? then (r, Err(Gate(r, host, who, false).value))
    else if !r.active then (r, Err(Unavailable))
    else if AdmitError(r, device, who.value).Some? then (r, Err(AdmitError(r, device, who.value).value))
    else
      var admitted := Admit(r, device, who.value);
      if sealing.NoSharedSecret? then (admitted, Err(Validation))
      else
        var pruned := Prune(admitted, now);
        if sealing.NoSigningKey? then (pruned, Err(Storage))
        else
          (pruned.(encrypted := true),
           Ok(Invitation(r.host, device, who.value.member, ReplayFrom(pruned),
                         admitted.participants[device].nextInput)))
  }

  function HostFrame(host: Host, sequence: nat, payload: Payload): Frame {
    Frame(host.room, host.epoch, host.member, host.device, Output, sequence, None, 0, payload)
  }

  /** `bytes` is the encoded size of the sealed frame. */
  function PublishEncrypted(r: Room, payload: Payload, bytes: nat, host: bool, now: Instant): (Room, Result<Frame>) {
    if !host then (r, Err(PermissionDenied))
    else if !r.active then (r, Err(Unavailable))
    else if !ValidPayload(payload) then (r, Err(Validation))
    else if r.nextOutput >= U64_MAX then (r, Err(Unavailable))
    else
      var frame := HostFrame(r.host, r.nextOutput, payload);
      var stored := r.(nextOutput := r.nextOutput + 1,
                       replayBytes := SaturatingAdd(r.replayBytes, bytes),
                       replay := r.replay + [StoredFrame(frame, bytes, now)],
                       encrypted := true);
      (Prune(stored, now), Ok(frame))
  }

  function PublishPlain(r: Room, payload: Payload, host: bool): (Room, Result<nat>) {
    if !ValidPayload(payload) then (r, Err(Validation))
    else if !host then (r, Err(PermissionDenied))
    else if !r.active then (r, Err(Unavailable))
    else if r.encrypted then (r, Err(PermissionDenied))
    else if r.nextOutput >= U64_MAX then (r, Err(Unavailable))
    else (r.(nextOutput := r.nextOutput + 1), Ok(r.nextOutput))
  }

  /** What the window answers, once it is pruned. */
  function WindowAnswer(p: Room, after: nat): Result<seq<Frame>> {
    var latest := SaturatingSub(p.nextOutput, 1);
    if after > latest then Err(Validation)
    else if after == latest then Ok([])
    else if p.replay == [] then Err(Unavailable)
    else if SaturatingAdd(after, 1) < p.replay[0].frame.sequence then Err(Unavailable)
    else Ok(FramesAfter(p.replay, after))
  }

  function ReplayOutput(r: Room, device: DeviceId, who: Option<Membership>, host: bool, after: nat, now: Instant)
    : (Room, Result<seq<Frame>>)
  {
    if Gate(r, host, who, false).Some? then (r, Err(Gate(r, host, who, false).value))
    else if !r.active || device !in r.participants || r.participants[device].member != who.value.member then
      (r, Err(PermissionDenied))
    else
      (Prune(r, now), WindowAnswer(Prune(r, now), after))
  }

  /** `id` is the lease id the call generates. */
  function GrantControl(
    r: Room, device: DeviceId, who: Option<Membership>, host: bool, seconds: nat, id: LeaseId,
    wall: Instant, now: Instant)
    : (Room, Result<()>)
  {
    if !(MIN_LEASE_SECONDS <= seconds <= MAX_LEASE_SECONDS) then (r, Err(Validation))
    else if Gate(r, host, who, true).Some? then (r, Err(Gate(r, host, who, true).value))
    else if !r.active || device !in r.participants then (r, Err(PermissionDenied))
    else if r.leaseGeneration >= U64_MAX then (r, Err(Unavailable))
    else
      var g := r.leaseGeneration + 1;
      var held := HeldLease(Lease(id, who.value.member, device, g, wall + seconds * SECOND), now + seconds * SECOND);
      (Expire(r.(leaseGeneration := g, lease := Some(held)), now), Ok(()))
  }

  /** A lease decided by the online relay.  The room's status is not consulted. */
  function ApplyLease(r: Room, lease: Lease, who: Option<Membership>, host: bool, wall: Instant, now: Instant)
    : (Room, Result<()>)
  {
    var remaining := lease.expiry - wall;
    if lease.generation == 0 || remaining <= 0 || remaining > 5 * 60 * SECOND then (r, Err(Validation))
    else if !host || who.None? || who.value.member != lease.member || !who.value.role.canControl then
      (r, Err(PermissionDenied))
    else if lease.device !in r.participants || r.participants[lease.device].member != lease.member then
      (r, Err(PermissionDenied))
    else if lease.generation < r.leaseGeneration then (r, Err(Validation))
    else if lease.generation == r.leaseGeneration then
      if r.lease.Some? && r.lease.value.lease == lease then (Expire(r, now), Ok(())) else (r, Err(Validation))
    else
      (Expire(r.(leaseGeneration := lease.generation, lease := Some(HeldLease(lease, now + remaining))), now), Ok(()))
  }

  function RemoveParticipant(r: Room, device: DeviceId, host: bool, now: Instant): (Room, Result<()>) {
    if !host then (r, Err(PermissionDenied))
    else if device == r.host.device then (r, Err(Validation))
    else
      var removed := r.(participants := r.participants - {device},
                        lease := if r.lease.Some? && r.lease.value.lease.device == device then None else r.lease);
      (Expire(removed, now), Ok(()))
  }

  function RevokeControl(r: Room, host: bool): (Room, Result<()>) {
    if !host then (r, Err(PermissionDenied)) else (r.(lease := None), Ok(()))
  }

  function Close(r: Room): Room {
    r.(active := false, lease := None, replay := [], replayBytes := 0)
  }

  function CloseBy(r: Room, host: bool): (Room, Result<()>) {
    if !host then (r, Err(PermissionDenied)) else (Close(r), Ok(()))
  }

  /** The first half of receiving an encrypted input frame, under the first lock. */
  function CheckInput(r: Room, f: Frame, who: Option<Membership>, host: bool, now: Instant): (Room, Result<()>) {
    if f.direction != Input || f.sequence == 0 || f.leaseGeneration == 0 || f.leaseId.None? then (r, Err(Validation))
    else if who.None? || who.value.member != f.member || !who.value.role.canControl || !host then
      (r, Err(PermissionDenied))
    else
      var e := Expire(r, now);
      if e.lease.None? then (e, Err(PermissionDenied))
      else
        var lease := e.lease.value.lease;
        if || !e.active || e.host.epoch != f.epoch
           || f.device !in e.participants
           || e.participants[f.device].member != f.member
           || e.participants[f.device].nextInput != f.sequence
           || lease.id != f.leaseId.value || lease.device != f.device
           || lease.member != f.member || lease.generation != f.leaseGeneration
        then (e, Err(PermissionDenied))
        else (e, Ok(()))
  }

  /** The second half, `receive_input`, under a lock of its own.  It names the lease by id
      only; the generation is not looked at again. */
  function CommitInput(
    r: Room, device: DeviceId, who: Option<Membership>, host: bool, leaseId: LeaseId, sequence: nat,
    payload: Payload, now: Instant)
    : (Room, Result<Payload>)
  {
    if !ValidPayload(payload) then (r, Err(Validation))
    else if Gate(r, host, who, true).Some? then (r, Err(Gate(r, host, who, true).value))
    else
      var e := Expire(r, now);
      if !e.active then (e, Err(Unavailable))
      else if e.lease.None? then (e, Err(PermissionDenied))
      else
        var lease := e.lease.value.lease;
        if lease.id != leaseId || lease.device != device || lease.member != who.value.member then
          (e, Err(PermissionDenied))
        else if device !in e.participants then (e, Err(PermissionDenied))
        else
          var p := e.participants[device];
          if p.nextInput != sequence then (e, Err(Validation))
          else if p.nextInput >= U64_MAX then (e, Err(Unavailable))
          else (e.(participants := e.participants[device := p.(nextInput := p.nextInput + 1)]), Ok(payload))
  }

  // ---- what every reachable room satisfies ------------------------------------

  /** The window holds consecutive sequence numbers ending at the latest one. */
  predicate Consecutive(replay: seq<StoredFrame>, next: nat) {
    && |replay| < next
    && forall i :: 0 <= i < |replay| ==> replay[i].frame.sequence == next - |replay| + i
  }

  predicate TimeOrdered(replay: seq<StoredFrame>, now: Instant) {
    forall i, j :: 0 <= i <= j < |replay| ==> replay[i].createdAt <= replay[j].createdAt <= now
  }

  predicate WithinLimits(r: Room) {
    |r.replay| <= MAX_REPLAY_FRAMES && r.replayBytes <= MAX_REPLAY_BYTES
  }

  predicate InputsInv(participants: map<DeviceId, Participant>) {
    forall d :: d in participants ==> 1 <= participants[d].nextInput <= U64_MAX
  }

  /** A held lease carries the current generation and its holder is a participant. */
  predicate LeaseInv(r: Room) {
    && (r.lease.Some? ==>
          && r.lease.value.lease.generation == r.leaseGeneration
          && r.lease.value.lease.device in r.participants)
    && InputsInv(r.participants)
  }

  predicate ReplayInv(r: Room) {
    && 1 <= r.nextOutput <= U64_MAX
    && Consecutive(r.replay, r.nextOutput)
    && r.replayBytes == SumBytes(r.replay)
    && (!r.encrypted ==> r.replay == [])
    && (!r.active ==> r.replay == [])
  }

  predicate RoomInv(r: Room, now: Instant) {
    ReplayInv(r) && WithinLimits(r) && TimeOrdered(r.replay, now) && LeaseInv(r)
  }

  // ---- the replay window ------------------------------------------------------

  lemma {:induction false} SumSplit(a: seq<StoredFrame>, b: seq<StoredFrame>)
    ensures SumBytes(a + b) == SumBytes(a) + SumBytes(b)
  {
    if a == [] {
      assert a + b == b;
    } else {
      assert (a + b)[1..] == a[1..] + b;
      SumSplit(a[1..], b);
    }
  }

  /** Pruning keeps a suffix of the window, touches nothing else, and keeps the books exact. */
  lemma {:induction false} PruneKeepsSuffix(r: Room, now: Instant)
    requires ReplayInv(r)
    ensures var p := Prune(r, now);
            && ReplayInv(p) && WithinLimits(p)
            && |p.replay| <= |r.replay| && p.replay == r.replay[|r.replay| - |p.replay|..]
            && (p.replay != [] ==> now - p.replay[0].createdAt <= REPLAY_TTL)
    decreases |r.replay|
  {
    if r.replay != [] && Overdue(r.replay, r.replayBytes, now) {
      var s := r.(replay := r.replay[1..], replayBytes := SaturatingSub(r.replayBytes, r.replay[0].bytes));
      PruneKeepsSuffix(s, now);
      var p := Prune(s, now);
      assert s.replay[|s.replay| - |p.replay|..] == r.replay[|r.replay| - |p.replay|..];
    }
  }

  /** A suffix of the window that could be kept: fresh and within both limits. */
  predicate Keepable(replay: seq<StoredFrame>, k: nat, now: Instant)
    requires k <= |replay|
  {
    && |replay| - k <= MAX_REPLAY_FRAMES
    && SumBytes(replay[k..]) <= MAX_REPLAY_BYTES
    && forall i :: k <= i < |replay| ==> now - replay[i].createdAt <= REPLAY_TTL
  }

  lemma KeepableOfTail(replay: seq<StoredFrame>, k: nat, now: Instant)
    requires k < |replay|
    ensures Keepable(replay[1..], k, now) <==> Keepable(replay, k + 1, now)
  {
    var rest := replay[1..];
    assert rest[k..] == replay[k + 1..];
    if Keepable(rest, k, now) {
      forall i | k + 1 <= i < |replay| ensures now - replay[i].createdAt <= REPLAY_TTL {
        assert replay[i] == rest[i - 1];
      }
    }
  }

  /** Pruning is exactly "keep the longest suffix that is fresh and within both limits". */
  lemma {:induction false} PruneKeepsTheLongestSuffix(r: Room, now: Instant)
    requires ReplayInv(r) && TimeOrdered(r.replay, now)
    ensures |Prune(r, now).replay| <= |r.replay|
    ensures var k := |r.replay| - |Prune(r, now).replay|;
            Keepable(r.replay, k, now) && forall j :: 0 <= j < k ==> !Keepable(r.replay, j, now)
    decreases |r.replay|
  {
    assert r.replay[0..] == r.replay;
    if r.replay != [] && Overdue(r.replay, r.replayBytes, now) {
      var s := r.(replay := r.replay[1..], replayBytes := SaturatingSub(r.replayBytes, r.replay[0].bytes));
      PruneKeepsTheLongestSuffix(s, now);
      forall j | 0 <= j < |r.replay| ensures Keepable(s.replay, j, now) <==> Keepable(r.replay, j + 1, now) {
        KeepableOfTail(r.replay, j, now);
      }
      assert !Keepable(r.replay, 0, now);
      var k := |r.replay| - |Prune(r, now).replay|;
      forall j | 0 < j < k ensures !Keepable(r.replay, j, now) {
        assert !Keepable(s.replay, j - 1, now);
      }
    }
  }

  /** A frame that was just published survives its own pruning exactly when it fits the
      byte limit alone. */
  lemma PublishedFrameIsKept(r: Room, payload: Payload, bytes: nat, now: Instant)
    requires RoomInv(r, now) && bytes <= ISIZE_MAX
    requires PublishEncrypted(r, payload, bytes, true, now).1.Ok?
    ensures var (p, f) := PublishEncrypted(r, payload, bytes, true, now);
            (p.replay != [] && p.replay[|p.replay| - 1].frame == f.value) <==> bytes <= MAX_REPLAY_BYTES
  {
    var frame := HostFrame(r.host, r.nextOutput, payload);
    var s := Stored(r, payload, bytes, now);
    StoringKeepsTheBooks(r, payload, bytes, now);
    PruneKeepsTheLongestSuffix(s, now);
    PruneKeepsSuffix(s, now);
    var n := |s.replay|;
    var k := n - |Prune(s, now).replay|;
    assert s.replay[n - 1..] == [StoredFrame(frame, bytes, now)];
    assert SumBytes(s.replay[n - 1..]) == bytes;
    if bytes <= MAX_REPLAY_BYTES {
      assert Keepable(s.replay, n - 1, now);
    }
    if k < n {
      LastIsCounted(s.replay[k..]);
    }
  }

  /** The length of `n` bytes in base64 without padding. */
  function Base64Length(n: nat): nat {
    (4 * n + 2) / 3
  }

  /** The encoded size of a frame: the sealed payload in base64, and `header` bytes of all the rest. */
  function EncodedBytes(payload: Payload, header: nat): nat {
    Base64Length(|payload| + SEAL_BYTES) + header
  }

  /** Every frame that is published is kept, and no receiver refuses it for its size: a payload has
      64 KiB at most, and what is around it no more than 40 KiB. */
  lemma EveryPublishedFrameIsKept(r: Room, payload: Payload, header: nat, host: bool, now: Instant)
    requires RoomInv(r, now) && header <= HEADER_LIMIT
    requires PublishEncrypted(r, payload, EncodedBytes(payload, header), host, now).1.Ok?
    ensures EncodedBytes(payload, header) <= MAX_ENVELOPE_BYTES
    ensures var (p, f) := PublishEncrypted(r, payload, EncodedBytes(payload, header), host, now);
            p.replay != [] && p.replay[|p.replay| - 1].frame == f.value
  {
    PublishedFrameIsKept(r, payload, EncodedBytes(payload, header), now);
  }

  lemma {:induction false} LastIsCounted(replay: seq<StoredFrame>)
    requires replay != []
    ensures replay[|replay| - 1].bytes <= SumBytes(replay)
  {
    if |replay| > 1 {
      LastIsCounted(replay[1..]);
    }
  }

  function Stored(r: Room, payload: Payload, bytes: nat, now: Instant): Room {
    r.(nextOutput := r.nextOutput + 1,
       replayBytes := SaturatingAdd(r.replayBytes, bytes),
       replay := r.replay + [StoredFrame(HostFrame(r.host, r.nextOutput, payload), bytes, now)],
       encrypted := true)
  }

  lemma StoringKeepsTheBooks(r: Room, payload: Payload, bytes: nat, now: Instant)
    requires RoomInv(r, now) && bytes <= ISIZE_MAX && r.nextOutput < U64_MAX && r.active
    ensures ReplayInv(Stored(r, payload, bytes, now)) && TimeOrdered(Stored(r, payload, bytes, now).replay, now)
  {
    SumSplit(r.replay, [StoredFrame(HostFrame(r.host, r.nextOutput, payload), bytes, now)]);
  }

  function Frames(replay: seq<StoredFrame>): (frames: seq<Frame>)
    ensures |frames| == |replay|
    ensures forall i :: 0 <= i < |replay| ==> frames[i] == replay[i].frame
  {
    seq(|replay|, i requires 0 <= i < |replay| => replay[i].frame)
  }

  /** A replay request succeeds exactly when the acknowledged sequence exists and nothing
      after it was pruned, and then returns every later frame, in order. */
  lemma ReplayReturnsExactlyTheRest(r: Room, device: DeviceId, who: Membership, after: nat, now: Instant)
    requires RoomInv(r, now) && r.active && who.role.canView
    requires device in r.participants && r.participants[device].member == who.member
    ensures ReplayOutput(r, device, Some(who), true, after, now).0 == Prune(r, now)
    ensures Rest(Prune(r, now).replay, r.nextOutput, after, ReplayOutput(r, device, Some(who), true, after, now).1)
  {
    PruneKeepsSuffix(r, now);
    WindowAnswers(Prune(r, now), after);
  }

  /** An answer from a window that ends before `next`: there is one if and only if all frames after
      `after` are in the window, and then it is those frames, in order. */
  predicate Rest(window: seq<StoredFrame>, next: nat, after: nat, answer: Result<seq<Frame>>)
    requires 1 <= next
  {
    && (answer.Ok? <==> next - 1 - |window| <= after <= next - 1)
    && (answer.Ok? ==>
          && answer.value == Frames(window[|window| - (next - 1 - after)..])
          && |answer.value| == next - 1 - after
          && forall i :: 0 <= i < |answer.value| ==> answer.value[i].sequence == after + 1 + i)
  }

  lemma WindowAnswersWhen(p: Room, after: nat)
    requires ReplayInv(p)
    ensures WindowAnswer(p, after).Ok? <==> p.nextOutput - 1 - |p.replay| <= after <= p.nextOutput - 1
  {
    if p.replay != [] {
      assert p.replay[0].frame.sequence == p.nextOutput - |p.replay|;
    }
  }

  lemma WindowAnswersWhat(p: Room, after: nat)
    requires ReplayInv(p) && p.nextOutput - 1 - |p.replay| <= after <= p.nextOutput - 1
    ensures WindowAnswer(p, after) == Ok(Frames(p.replay[|p.replay| - (p.nextOutput - 1 - after)..]))
  {
    WindowAnswersWhen(p, after);
    if after < p.nextOutput - 1 {
      FramesAfterIsSuffix(p.replay, p.nextOutput, after);
    } else {
      assert p.replay[|p.replay|..] == [];
    }
  }

  lemma WindowAnswers(p: Room, after: nat)
    requires ReplayInv(p)
    ensures Rest(p.replay, p.nextOutput, after, WindowAnswer(p, after))
  {
    WindowAnswersWhen(p, after);
    if p.nextOutput - 1 - |p.replay| <= after <= p.nextOutput - 1 {
      var n := p.nextOutput - 1 - after;
      WindowAnswersWhat(p, after);
      SuffixCounts(p.replay, p.nextOutput, n, Frames(p.replay[|p.replay| - n..]));
    }
  }

  lemma SuffixCounts(replay: seq<StoredFrame>, next: nat, n: nat, frames: seq<Frame>)
    requires Consecutive(replay, next) && n <= |replay| && frames == Frames(replay[|replay| - n..])
    ensures |frames| == n && forall i :: 0 <= i < n ==> frames[i].sequence == next - n + i
  {
  }

  lemma {:induction false} FramesAfterIsSuffix(replay: seq<StoredFrame>, next: nat, after: nat)
    requires |replay| < next && after < next
    requires forall i :: 0 <= i < |replay| ==> replay[i].frame.sequence == next - |replay| + i
    ensures var n := if next - 1 - after <= |replay| then next - 1 - after else |replay|;
            FramesAfter(replay, after) == Frames(replay[|replay| - n..])
  {
    if replay != [] {
      var rest := replay[1..];
      forall i | 0 <= i < |rest| ensures rest[i].frame.sequence == next - |rest| + i {
        assert rest[i] == replay[i + 1];
      }
      FramesAfterIsSuffix(rest, next, after);
      var n := if next - 1 - after <= |rest| then next - 1 - after else |rest|;
      assert rest[|rest| - n..] == replay[|replay| - n..];
    }
  }

  // ---- every call keeps the invariant -----------------------------------------

  /** The call published nothing: at most it pruned the window or turned encryption on. */
  predicate Quiet(r: Room, r': Room) {
    && r'.host == r.host
    && r'.nextOutput == r.nextOutput && (r.encrypted ==> r'.encrypted)
    && (|| r'.replay == r.replay
        || (|r'.replay| <= |r.replay| && r'.replay == r.replay[|r.replay| - |r'.replay|..]))
  }

  /** The fencing half of a call: the generation never goes back, and a lease held at the same
      generation is the same lease, whose holder's next input sequence has not gone back. */
  predicate Fenced(r: Room, r': Room) {
    && r.leaseGeneration <= r'.leaseGeneration
    && (r'.lease.Some? && r'.leaseGeneration == r.leaseGeneration ==>
          && r.lease == r'.lease
          && var d := r.lease.value.lease.device;
             d in r.participants && d in r'.participants
             && r.participants[d].nextInput <= r'.participants[d].nextInput)
  }

  /** Neither published anything nor touched the lease's generation. */
  predicate Calm(r: Room, r': Room) {
    Quiet(r, r') && Fenced(r, r') && r'.leaseGeneration == r.leaseGeneration
  }

  lemma {:induction false} PruneStaysOrdered(r: Room, now: Instant)
    requires TimeOrdered(r.replay, now)
    ensures TimeOrdered(Prune(r, now).replay, now)
    decreases |r.replay|
  {
    if r.replay != [] && Overdue(r.replay, r.replayBytes, now) {
      PruneStaysOrdered(
        r.(replay := r.replay[1..], replayBytes := SaturatingSub(r.replayBytes, r.replay[0].bytes)), now);
    }
  }

  lemma PruneIsCalm(r: Room, now: Instant)
    requires ReplayInv(r) && LeaseInv(r)
    ensures Calm(r, Prune(r, now))
  {
    PruneKeepsSuffix(r, now);
  }

  lemma PruneKeepsInv(r: Room, now: Instant)
    requires ReplayInv(r) && TimeOrdered(r.replay, now) && LeaseInv(r)
    ensures RoomInv(Prune(r, now), now)
  {
    PruneKeepsSuffix(r, now);
    PruneStaysOrdered(r, now);
  }

  lemma PublishKeepsInv(r: Room, payload: Payload, bytes: nat, host: bool, now: Instant)
    requires RoomInv(r, now) && bytes <= ISIZE_MAX
    ensures RoomInv(PublishEncrypted(r, payload, bytes, host, now).0, now)
    ensures RoomInv(PublishPlain(r, payload, host).0, now)
    ensures Fenced(r, PublishEncrypted(r, payload, bytes, host, now).0) && Fenced(r, PublishPlain(r, payload, host).0)
    ensures var (e, p) := (PublishEncrypted(r, payload, bytes, host, now).0, PublishPlain(r, payload, host).0);
            && e.lease == p.lease == r.lease && e.participants == p.participants == r.participants
            && e.leaseGeneration == p.leaseGeneration == r.leaseGeneration
  {
    if host && r.active && ValidPayload(payload) && r.nextOutput < U64_MAX {
      StoringKeepsTheBooks(r, payload, bytes, now);
      PruneKeepsInv(Stored(r, payload, bytes, now), now);
      PruneIsCalm(Stored(r, payload, bytes, now), now);
    }
  }

  lemma AdmitKeepsInv(r: Room, device: DeviceId, who: Membership, now: Instant)
    requires RoomInv(r, now)
    ensures RoomInv(Admit(r, device, who), now) && Calm(r, Admit(r, device, who))
  {
  }

  lemma CalmAfterAdmit(r: Room, admitted: Room, r': Room)
    requires LeaseInv(r) && Calm(r, admitted) && admitted.replay == r.replay && Calm(admitted, r')
    ensures Calm(r, r')
  {
  }

  lemma JoinKeepsInv(r: Room, device: DeviceId, who: Option<Membership>, host: bool, now: Instant)
    requires RoomInv(r, now)
    ensures RoomInv(Join(r, device, who, host, now).0, now)
    ensures Calm(r, Join(r, device, who, host, now).0)
  {
    if who.Some? { AdmitKeepsInv(r, device, who.value, now); }
  }

  lemma InvitationKeepsInv(
    r: Room, device: DeviceId, who: Option<Membership>, host: bool, sealing: Sealing, now: Instant)
    requires RoomInv(r, now)
    ensures RoomInv(CreateInvitation(r, device, who, host, sealing, now).0, now)
    ensures Calm(r, CreateInvitation(r, device, who, host, sealing, now).0)
  {
    if who.Some? {
      var admitted := Admit(r, device, who.value);
      AdmitKeepsInv(r, device, who.value, now);
      PruneKeepsInv(admitted, now);
      PruneIsCalm(admitted, now);
      CalmAfterAdmit(r, admitted, Prune(admitted, now));
    }
  }

  /** An invitation starts the client right before the oldest frame that can still be replayed. */
  lemma InvitationStartsAtTheWindow(
    r: Room, device: DeviceId, who: Option<Membership>, host: bool, sealing: Sealing, now: Instant)
    requires RoomInv(r, now)
    requires CreateInvitation(r, device, who, host, sealing, now).1.Ok?
    ensures var (room, answer) := CreateInvitation(r, device, who, host, sealing, now);
            && answer.value.host == r.host && room.encrypted
            && answer.value.replayFrom == r.nextOutput - 1 - |room.replay|
            && device in room.participants && answer.value.nextInput == room.participants[device].nextInput
  {
    PruneKeepsSuffix(Admit(r, device, who.value), now);
  }

  lemma GrantKeepsInv(
    r: Room, device: DeviceId, who: Option<Membership>, host: bool, seconds: nat, id: LeaseId,
    wall: Instant, now: Instant)
    requires RoomInv(r, now)
    ensures RoomInv(GrantControl(r, device, who, host, seconds, id, wall, now).0, now)
    ensures Quiet(r, GrantControl(r, device, who, host, seconds, id, wall, now).0)
    ensures Fenced(r, GrantControl(r, device, who, host, seconds, id, wall, now).0)
  {
  }

  lemma ApplyKeepsInv(r: Room, lease: Lease, who: Option<Membership>, host: bool, wall: Instant, now: Instant)
    requires RoomInv(r, now)
    ensures RoomInv(ApplyLease(r, lease, who, host, wall, now).0, now)
    ensures Quiet(r, ApplyLease(r, lease, who, host, wall, now).0)
    ensures Fenced(r, ApplyLease(r, lease, who, host, wall, now).0)
  {
  }

  lemma RemoveKeepsInv(r: Room, device: DeviceId, host: bool, now: Instant)
    requires RoomInv(r, now)
    ensures RoomInv(RemoveParticipant(r, device, host, now).0, now)
    ensures Calm(r, RemoveParticipant(r, device, host, now).0)
  {
  }

  lemma CheckKeepsInv(r: Room, f: Frame, who: Option<Membership>, host: bool, now: Instant)
    requires RoomInv(r, now)
    ensures RoomInv(CheckInput(r, f, who, host, now).0, now)
    ensures Calm(r, CheckInput(r, f, who, host, now).0)
  {
  }

  lemma CommitKeepsInv(
    r: Room, device: DeviceId, who: Option<Membership>, host: bool, leaseId: LeaseId, sequence: nat,
    payload: Payload, now: Instant)
    requires RoomInv(r, now)
    ensures RoomInv(CommitInput(r, device, who, host, leaseId, sequence, payload, now).0, now)
    ensures Calm(r, CommitInput(r, device, who, host, leaseId, sequence, payload, now).0)
  {
  }

  lemma ReplayKeepsInv(r: Room, device: DeviceId, who: Option<Membership>, host: bool, after: nat, now: Instant)
    requires RoomInv(r, now)
    ensures RoomInv(ReplayOutput(r, device, who, host, after, now).0, now)
    ensures Calm(r, ReplayOutput(r, device, who, host, after, now).0)
  {
    PruneKeepsInv(r, now);
    PruneIsCalm(r, now);
  }

  // ---- whose input is heard ---------------------------------------------------

  /** No frame passes the check and no input is accepted, from anyone, at any time. */
  ghost predicate RefusesInput(r: Room) {
    && (forall f, who, host, at :: CheckInput(r, f, who, host, at).1.Err?)
    && (forall device, who, host, id, sequence, payload, at ::
          CommitInput(r, device, who, host, id, sequence, payload, at).1.Err?)
  }

  /** No frame of the device passes the check, no input of it is accepted, and nothing is replayed to it. */
  ghost predicate DeafTo(r: Room, d: DeviceId) {
    && (forall f: Frame, who, host, at :: f.device == d ==> CheckInput(r, f, who, host, at).1.Err?)
    && (forall who, host, id, sequence, payload, at :: CommitInput(r, d, who, host, id, sequence, payload, at).1.Err?)
    && (forall who, host, after, at :: ReplayOutput(r, d, who, host, after, at).1.Err?)
  }

  /** Only the holder of this very lease is heard: frames made under any other are refused. */
  ghost predicate HearsOnly(r: Room, lease: Lease) {
    && (forall f, who, host, at :: CheckInput(r, f, who, host, at).1.Ok? ==>
          f.device == lease.device && f.leaseId == Some(lease.id) && f.leaseGeneration == lease.generation)
    && (forall device, who, host, id, sequence, payload, at ::
          CommitInput(r, device, who, host, id, sequence, payload, at).1.Ok? ==>
            device == lease.device && id == lease.id)
  }

  lemma WithoutALeaseNothingIsHeard(r: Room)
    requires r.lease.None? || !r.active
    ensures RefusesInput(r)
  {
  }

  lemma NonParticipantsAreNotHeard(r: Room, d: DeviceId)
    requires d !in r.participants
    ensures DeafTo(r, d)
  {
  }

  lemma OnlyTheHolderIsHeard(r: Room)
    requires r.lease.Some?
    ensures HearsOnly(r, r.lease.value.lease)
  {
  }

  /** Nothing is published, replayed or heard, and nobody is let in. */
  ghost predicate Silent(r: Room) {
    && RefusesInput(r)
    && (forall payload, bytes, host, at :: PublishEncrypted(r, payload, bytes, host, at).1.Err?)
    && (forall payload, host :: PublishPlain(r, payload, host).1.Err?)
    && (forall device, who, host, after, at :: ReplayOutput(r, device, who, host, after, at).1.Err?)
    && (forall device, who, host, at :: Join(r, device, who, host, at).1.Err?)
    && (forall device, who, host, sealing, at :: CreateInvitation(r, device, who, host, sealing, at).1.Err?)
  }

  lemma ClosedRoomsAreSilent(r: Room)
    requires !r.active
    ensures Silent(r)
  {
    WithoutALeaseNothingIsHeard(r);
  }

  /** The frame is an input of this room, made by the caller's member under a lease of this generation. */
  predicate MadeFor(r: Room, f: Frame, who: Option<Membership>) {
    && f.direction == Input && f.sequence != 0 && f.leaseId.Some? && f.epoch == r.host.epoch
    && f.leaseGeneration != 0 && r.lease.Some? && f.leaseGeneration == r.lease.value.lease.generation
    && who.Some? && f.member == who.value.member
    && f.device in r.participants && f.member == r.participants[f.device].member
  }

  /** The device holds the lease of that id, its time is not over, its member may control, and it stands
      at that sequence number. */
  predicate MayInput(
    r: Room, device: DeviceId, who: Option<Membership>, host: bool, id: LeaseId, sequence: nat, now: Instant)
  {
    && host && who.Some? && who.value.role.canControl
    && r.active
    && r.lease.Some? && now < r.lease.value.expiresAt
    && device in r.participants && r.participants[device].nextInput == sequence
    && var lease := r.lease.value.lease;
       lease.id == id && lease.device == device && lease.member == who.value.member
  }

  /** The check lets exactly those frames pass that were made for the room as it is, by the holder of
      the lease at its next sequence number. */
  lemma CheckPassesExactly(r: Room, f: Frame, who: Option<Membership>, host: bool, now: Instant)
    ensures CheckInput(r, f, who, host, now).1.Ok?
            <==> MadeFor(r, f, who) && MayInput(r, f.device, who, host, f.leaseId.value, f.sequence, now)
  {
  }

  lemma CommitPassesExactly(
    r: Room, device: DeviceId, who: Option<Membership>, host: bool, id: LeaseId, sequence: nat,
    payload: Payload, now: Instant)
    ensures CommitInput(r, device, who, host, id, sequence, payload, now).1.Ok?
            <==> ValidPayload(payload) && MayInput(r, device, who, host, id, sequence, now) && sequence < U64_MAX
  {
  }

  /** So the check passes exactly the frames made for the room that a commit would accept at once. */
  lemma CheckAnticipatesTheCommit(r: Room, f: Frame, who: Option<Membership>, host: bool, now: Instant)
    requires ValidPayload(f.payload) && f.sequence < U64_MAX
    ensures CheckInput(r, f, who, host, now).1.Ok?
            <==> MadeFor(r, f, who)
                 && CommitInput(r, f.device, who, host, f.leaseId.value, f.sequence, f.payload, now).1.Ok?
  {
    CheckPassesExactly(r, f, who, host, now);
    if f.leaseId.Some? {
      CommitPassesExactly(r, f.device, who, host, f.leaseId.value, f.sequence, f.payload, now);
    }
  }

  /** Nothing has changed but that an overdue lease may be gone: a live one is still held. */
  predicate OnlyLapses(r: Room, r': Room, now: Instant) {
    && r' == r.(lease := r'.lease)
    && (r'.lease.Some? ==> r'.lease == r.lease)
    && (r.lease.Some? && now < r.lease.value.expiresAt ==> r'.lease == r.lease)
  }

  /** A check, whatever it answers, and a refused commit take nothing from anybody: a frame that comes
      twice, or too late, does not cost its sender the lease. */
  lemma RefusedInputChangesNothing(
    r: Room, f: Frame, who: Option<Membership>, host: bool, id: LeaseId, now: Instant)
    ensures OnlyLapses(r, CheckInput(r, f, who, host, now).0, now)
    ensures var (room, answer) := CommitInput(r, f.device, who, host, id, f.sequence, f.payload, now);
            answer.Err? ==> OnlyLapses(r, room, now)
  {
  }

  /** The caller may have the room's output replayed to the device. */
  predicate MayReplay(r: Room, device: DeviceId, who: Option<Membership>, host: bool) {
    && host && who.Some? && who.value.role.canView
    && r.active && device in r.participants && r.participants[device].member == who.value.member
  }

  /** Who gets an answer: exactly the participants, under their own member, and for exactly the frames
      that are still there. */
  lemma ReplayAnswersExactly(
    r: Room, device: DeviceId, who: Option<Membership>, host: bool, after: nat, now: Instant)
    requires RoomInv(r, now)
    ensures var (p, answer) := ReplayOutput(r, device, who, host, after, now);
            && p == (if MayReplay(r, device, who, host) then Prune(r, now) else r)
            && (if MayReplay(r, device, who, host) then Rest(p.replay, r.nextOutput, after, answer) else answer.Err?)
  {
    if MayReplay(r, device, who, host) {
      ReplayReturnsExactlyTheRest(r, device, who.value, after, now);
    }
  }

  /** The device may be let in: its member may view, and it takes part already or there is room. */
  predicate MayEnter(r: Room, device: DeviceId, who: Option<Membership>, host: bool) {
    && host && who.Some? && who.value.role.canView && r.active
    && (if device in r.participants then r.participants[device].member == who.value.member
        else |r.participants| < MAX_PARTICIPANTS)
  }

  /** The participants once the device is let in: it keeps its place in its input sequence, or starts at 1. */
  function Entered(participants: map<DeviceId, Participant>, device: DeviceId, who: Membership)
    : map<DeviceId, Participant>
  {
    participants[device := Participant(who.member, who.role,
                                       if device in participants then participants[device].nextInput else 1)]
  }

  lemma {:induction false} PruneDependsOnTheWindow(r: Room, q: Room, now: Instant)
    requires r.replay == q.replay && r.replayBytes == q.replayBytes
    ensures Prune(r, now).replay == Prune(q, now).replay
    decreases |r.replay|
  {
    if r.replay != [] && Overdue(r.replay, r.replayBytes, now) {
      var bytes := SaturatingSub(r.replayBytes, r.replay[0].bytes);
      PruneDependsOnTheWindow(
        r.(replay := r.replay[1..], replayBytes := bytes), q.(replay := r.replay[1..], replayBytes := bytes), now);
    }
  }

  /** Who is invited, to what, and what a failure to seal leaves. */
  lemma InvitationSaysExactly(
    r: Room, device: DeviceId, who: Option<Membership>, host: bool, sealing: Sealing, now: Instant)
    requires RoomInv(r, now)
    ensures var (room, answer) := CreateInvitation(r, device, who, host, sealing, now);
            && (answer.Ok? <==> MayEnter(r, device, who, host) && sealing.Sealed?)
            && (answer.Ok? ==>
                  && device in room.participants
                  && answer.value.replayFrom == r.nextOutput - 1 - |room.replay|
                  && answer.value == Invitation(r.host, device, who.value.member, answer.value.replayFrom,
                                                room.participants[device].nextInput))
            && (room.encrypted <==> r.encrypted || answer.Ok?)
            && room.participants == (if MayEnter(r, device, who, host)
                                     then Entered(r.participants, device, who.value) else r.participants)
            && room.replay == (if MayEnter(r, device, who, host) && !sealing.NoSharedSecret?
                               then Prune(r, now).replay else r.replay)
            && room.lease == r.lease && room.active == r.active && room.nextOutput == r.nextOutput
  {
    if MayEnter(r, device, who, host) {
      var admitted := Admit(r, device, who.value);
      PruneDependsOnTheWindow(admitted, r, now);
      PruneKeepsSuffix(admitted, now);
    }
  }

  /** An accepted input is not accepted again in the room it leaves behind. */
  ghost predicate UsedUp(r: Room, device: DeviceId, sequence: nat) {
    && (forall f: Frame, who, host, at :: f.device == device && f.sequence == sequence ==>
          CheckInput(r, f, who, host, at).1.Err?)
    && (forall who, host, id, payload, at :: CommitInput(r, device, who, host, id, sequence, payload, at).1.Err?)
  }

  lemma OtherSequencesAreRefused(r: Room, device: DeviceId, sequence: nat)
    requires device in r.participants && r.participants[device].nextInput != sequence
    ensures UsedUp(r, device, sequence)
  {
  }
}
