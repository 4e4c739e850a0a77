/** The manager's room objects, updated in place: the host's `RoomState` and the client's
    `ClientRoomState`.  Each call keeps the room's invariant, says what its caller gets, and is
    proved to do what its function in TeamRoom or TeamProtocol does, so the theorems about whole
    runs hold of these objects. */
module TeamRoomState {
  import opened Base
  import opened TeamRoom
  import TeamProtocol

  method LaterThan(replay: seq<StoredFrame>, after: nat) returns (frames: seq<Frame>)
    ensures frames == FramesAfter(replay, after)
  {
    frames := [];
    var i := 0;
    assert replay[0..] == replay;
    while i < |replay|
      invariant i <= |replay|
      invariant frames + FramesAfter(replay[i..], after) == FramesAfter(replay, after)
    {
      assert replay[i..][1..] == replay[i + 1..];
      if replay[i].frame.sequence > after {
        frames := frames + [replay[i].frame];
      }
      i := i + 1;
    }
  }

  /** A lease of another device that is not overdue. */
  predicate KeptBy(lease: Option<HeldLease>, device: DeviceId, now: Instant) {
    lease.Some? && lease.value.lease.device != device && now < lease.value.expiresAt
  }

  lemma PublishingEncrypted(r: Room, payload: Payload, header: nat, host: bool, now: Instant)
    requires RoomInv(r, now) && EncodedBytes(payload, header) <= ISIZE_MAX
    ensures var (p, answer) := PublishEncrypted(r, payload, EncodedBytes(payload, header), host, now);
            && RoomInv(p, now)
            && (answer.Ok? && header <= HEADER_LIMIT ==>
                  p.replay != [] && p.replay[|p.replay| - 1].frame == answer.value)
            && (answer.Ok? ==>
                  var stored := r.replay + [StoredFrame(answer.value, EncodedBytes(payload, header), now)];
                  |p.replay| <= |stored| && p.replay == stored[|stored| - |p.replay|..])
            && p.lease == r.lease && p.participants == r.participants && p.active == r.active
            && p.leaseGeneration == r.leaseGeneration
  {
    PublishKeepsInv(r, payload, EncodedBytes(payload, header), host, now);
    if PublishEncrypted(r, payload, EncodedBytes(payload, header), host, now).1.Ok? {
      StoringKeepsTheBooks(r, payload, EncodedBytes(payload, header), now);
      PruneKeepsSuffix(Stored(r, payload, EncodedBytes(payload, header), now), now);
    }
    if header <= HEADER_LIMIT && PublishEncrypted(r, payload, EncodedBytes(payload, header), host, now).1.Ok? {
      EveryPublishedFrameIsKept(r, payload, header, host, now);
    }
  }

  class RoomState {
    const host: Host
    var active: bool
    var participants: map<DeviceId, Participant>
    var controlLease: Option<HeldLease>
    var nextOutputSequence: nat
    var leaseGeneration: nat
    var replay: seq<StoredFrame>
    var replayBytes: nat
    var encryptedTransportEnabled: bool

    /** The room's value. */
    function Model(): Room
      reads this
    {
      Room(host, active, participants, controlLease, nextOutputSequence, leaseGeneration,
           replay, replayBytes, encryptedTransportEnabled)
    }

    constructor (host: Host, role: Role)
      ensures Model() == NewRoom(host, role)
      ensures this.host == host && active && participants == map[host.device := Participant(host.member, role, 1)]
      ensures controlLease == None && leaseGeneration == 0 && nextOutputSequence == 1
      ensures replay == [] && replayBytes == 0 && !encryptedTransportEnabled
      ensures forall now :: RoomInv(Model(), now)
    {
      this.host := host;
      active := true;
      participants := map[host.device := Participant(host.member, role, 1)];
      controlLease := None;
      nextOutputSequence := 1;
      leaseGeneration := 0;
      replay := [];
      replayBytes := 0;
      encryptedTransportEnabled := false;
    }

    /** Afterwards no lease is held past its time; once it is overdue, nobody is heard. */
    method ExpireLease(now: Instant)
      modifies this`controlLease
      ensures Model() == Expire(old(Model()), now)
      ensures RoomInv(old(Model()), now) ==> RoomInv(Model(), now) && Calm(old(Model()), Model())
      ensures controlLease.Some? ==> controlLease == old(controlLease) && now < controlLease.value.expiresAt
      ensures OnlyLapses(old(Model()), Model(), now)
      ensures old(controlLease).Some? && old(controlLease).value.expiresAt <= now ==> RefusesInput(Model())
    {
      if controlLease.Some? && controlLease.value.expiresAt <= now {
        controlLease := None;
        WithoutALeaseNothingIsHeard(Model());
      }
    }

    method PruneReplay(now: Instant)
      modifies this`replay, this`replayBytes
      ensures Model() == Prune(old(Model()), now)
    {
      while replay != [] && (now - replay[0].createdAt > REPLAY_TTL
                             || |replay| > MAX_REPLAY_FRAMES || replayBytes > MAX_REPLAY_BYTES)
        invariant Prune(Model(), now) == Prune(old(Model()), now)
        decreases |replay|
      {
        replayBytes := SaturatingSub(replayBytes, replay[0].bytes);
        replay := replay[1..];
      }
    }

    /** The check and insertion that `join` and `create_invitation` share. */
    method AdmitDevice(device: DeviceId, who: Membership) returns (error: Option<Error>)
      modifies this`participants
      ensures error == AdmitError(old(Model()), device, who)
      ensures Model() == if error.Some? then old(Model()) else Admit(old(Model()), device, who)
    {
      if device !in participants && |participants| >= MAX_PARTICIPANTS {
        return Some(Validation);
      }
      if device in participants {
        if participants[device].member != who.member {
          return Some(PermissionDenied);
        }
        participants := participants[device := participants[device].(role := who.role)];
      } else {
        participants := participants[device := Participant(who.member, who.role, 1)];
      }
      return None;
    }

    /** A device that may view takes part afterwards, with its present role.  One that takes part
        already keeps its place in its input sequence; a new one starts at 1, if there is room. */
    method JoinRoom(device: DeviceId, who: Option<Membership>, authorized: bool, now: Instant)
      returns (answer: Result<()>)
      requires RoomInv(Model(), now)
      modifies this
      ensures Model() == Join(old(Model()), device, who, authorized, now).0
      ensures answer == Join(old(Model()), device, who, authorized, now).1
      ensures RoomInv(Model(), now) && Calm(old(Model()), Model())
      ensures answer.Ok? <==> MayEnter(old(Model()), device, who, authorized)
      ensures answer.Ok? ==> participants == Entered(old(participants), device, who.value)
      ensures answer.Ok? ==> OnlyLapses(old(Model()).(participants := participants), Model(), now)
      ensures answer == Err(Unavailable) <==> !old(active)
      ensures answer.Err? ==> Model() == old(Model())
    {
      JoinKeepsInv(Model(), device, who, authorized, now);
      if !active {
        return Err(Unavailable);
      }
      if !authorized || who.None? || !who.value.role.canView {
        return Err(PermissionDenied);
      }
      var error := AdmitDevice(device, who.value);
      if error.Some? {
        return Err(error.value);
      }
      ExpireLease(now);
      return Ok(());
    }

    /** An invitation names the state it leaves: the oldest frame that can still be replayed, and the
        recipient's place in its input sequence; from then on all output is encrypted. */
    method Invite(device: DeviceId, who: Option<Membership>, authorized: bool, sealing: Sealing, now: Instant)
      returns (answer: Result<Invitation>)
      requires RoomInv(Model(), now)
      modifies this
      ensures Model() == CreateInvitation(old(Model()), device, who, authorized, sealing, now).0
      ensures answer == CreateInvitation(old(Model()), device, who, authorized, sealing, now).1
      ensures RoomInv(Model(), now) && Calm(old(Model()), Model())
      ensures answer.Ok? <==> MayEnter(old(Model()), device, who, authorized) && sealing.Sealed?
      ensures answer.Ok? ==>
                && device in participants && answer.value.replayFrom == nextOutputSequence - 1 - |replay|
                && answer.value == Invitation(host, device, who.value.member, answer.value.replayFrom,
                                              participants[device].nextInput)
      ensures encryptedTransportEnabled <==> old(encryptedTransportEnabled) || answer.Ok?
      ensures participants == if MayEnter(old(Model()), device, who, authorized)
                              then Entered(old(participants), device, who.value) else old(participants)
      ensures controlLease == old(controlLease) && active == old(active)
      ensures !MayEnter(old(Model()), device, who, authorized) ==> Model() == old(Model())
    {
      InvitationKeepsInv(Model(), device, who, authorized, sealing, now);
      InvitationSaysExactly(Model(), device, who, authorized, sealing, now);
      if !authorized || who.None? || !who.value.role.canView {
        return Err(PermissionDenied);
      }
      if !active {
        return Err(Unavailable);
      }
      var error := AdmitDevice(device, who.value);
      if error.Some? {
        return Err(error.value);
      }
      if sealing.NoSharedSecret? {
        return Err(Validation);
      }
      PruneReplay(now);
      var first := if replay != [] then replay[0].frame.sequence else nextOutputSequence;
      var from := SaturatingSub(first, 1);
      var invitation := Invitation(host, device, who.value.member, from, participants[device].nextInput);
      if sealing.NoSigningKey? {
        return Err(Storage);
      }
      encryptedTransportEnabled := true;
      return Ok(invitation);
    }

    /** `header` is the encoded size of everything but the sealed payload. */
    method PublishEncryptedOutput(payload: Payload, header: nat, authorized: bool, now: Instant)
      returns (answer: Result<Frame>)
      requires RoomInv(Model(), now) && EncodedBytes(payload, header) <= ISIZE_MAX
      modifies this
      ensures Model() == PublishEncrypted(old(Model()), payload, EncodedBytes(payload, header), authorized, now).0
      ensures answer == PublishEncrypted(old(Model()), payload, EncodedBytes(payload, header), authorized, now).1
      ensures RoomInv(Model(), now)
      ensures answer.Ok? ==>
                && answer.value == HostFrame(host, old(nextOutputSequence), payload)
                && nextOutputSequence == old(nextOutputSequence) + 1 && encryptedTransportEnabled
                && (header <= HEADER_LIMIT ==> replay != [] && replay[|replay| - 1].frame == answer.value)
                && var stored := old(replay) + [StoredFrame(answer.value, EncodedBytes(payload, header), now)];
                   |replay| <= |stored| && replay == stored[|stored| - |replay|..]
      ensures answer.Ok? <==> authorized && active && ValidPayload(payload) && old(nextOutputSequence) < U64_MAX
      ensures active == old(active) && controlLease == old(controlLease) && participants == old(participants)
      ensures leaseGeneration == old(leaseGeneration)
      ensures answer.Err? ==> Model() == old(Model())
    {
      if !authorized {
        return Err(PermissionDenied);
      }
      if !active {
        return Err(Unavailable);
      }
      var sequence := nextOutputSequence;
      if !ValidPayload(payload) {
        return Err(Validation);
      }
      var frame := HostFrame(host, sequence, payload);
      if sequence >= U64_MAX {
        return Err(Unavailable);
      }
      var bytes := EncodedBytes(payload, header);
      PublishingEncrypted(Model(), payload, header, authorized, now);
      nextOutputSequence := sequence + 1;
      replayBytes := SaturatingAdd(replayBytes, bytes);
      replay := replay + [StoredFrame(frame, bytes, now)];
      encryptedTransportEnabled := true;
      PruneReplay(now);
      return Ok(frame);
    }

    /** Plain output takes the next sequence number and is not kept; where encryption is on, or the
        room is closed, there is none. */
    method PublishOutput(payload: Payload, authorized: bool, ghost now: Instant) returns (answer: Result<nat>)
      requires RoomInv(Model(), now)
      modifies this`nextOutputSequence
      ensures Model() == PublishPlain(old(Model()), payload, authorized).0
      ensures answer == PublishPlain(old(Model()), payload, authorized).1
      ensures RoomInv(Model(), now)
      ensures answer.Ok? <==>
                !encryptedTransportEnabled && active && authorized && ValidPayload(payload)
                && old(nextOutputSequence) < U64_MAX
      ensures answer.Ok? ==> answer.value == old(nextOutputSequence) && nextOutputSequence == answer.value + 1
      ensures answer.Err? ==> Model() == old(Model())
    {
      PublishKeepsInv(Model(), payload, 0, authorized, now);
      if !ValidPayload(payload) {
        return Err(Validation);
      }
      if !authorized {
        return Err(PermissionDenied);
      }
      if !active {
        return Err(Unavailable);
      }
      if encryptedTransportEnabled {
        return Err(PermissionDenied);
      }
      var sequence := nextOutputSequence;
      if sequence >= U64_MAX {
        return Err(Unavailable);
      }
      nextOutputSequence := sequence + 1;
      return Ok(sequence);
    }

    /** Exactly the participants are answered, and without a gap: from the frame after `after` to the
        latest one, if all of those are still there. */
    method ReplayFrames(device: DeviceId, who: Option<Membership>, authorized: bool, after: nat, now: Instant)
      returns (answer: Result<seq<Frame>>)
      requires RoomInv(Model(), now)
      modifies this`replay, this`replayBytes
      ensures Model() == ReplayOutput(old(Model()), device, who, authorized, after, now).0
      ensures answer == ReplayOutput(old(Model()), device, who, authorized, after, now).1
      ensures RoomInv(Model(), now) && Calm(old(Model()), Model())
      ensures if MayReplay(Model(), device, who, authorized)
              then Rest(replay, nextOutputSequence, after, answer) else answer.Err?
      ensures !MayReplay(Model(), device, who, authorized) ==> Model() == old(Model())
    {
      ReplayKeepsInv(Model(), device, who, authorized, after, now);
      ReplayAnswersExactly(Model(), device, who, authorized, after, now);
      if !authorized || who.None? || !who.value.role.canView {
        return Err(PermissionDenied);
      }
      if !active || device !in participants || participants[device].member != who.value.member {
        return Err(PermissionDenied);
      }
      PruneReplay(now);
      var latest := SaturatingSub(nextOutputSequence, 1);
      if after > latest {
        return Err(Validation);
      }
      if after == latest {
        return Ok([]);
      }
      if replay == [] || SaturatingAdd(after, 1) < replay[0].frame.sequence {
        return Err(Unavailable);
      }
      var frames := LaterThan(replay, after);
      return Ok(frames);
    }

    /** A participant who may control gets a lease of the next generation, for five minutes at most;
        nobody else is heard then, and no frame made under an earlier lease. */
    method Grant(device: DeviceId, who: Option<Membership>, authorized: bool, seconds: nat, id: LeaseId,
                 wall: Instant, now: Instant)
      returns (answer: Result<()>)
      requires RoomInv(Model(), now)
      modifies this
      ensures Model() == GrantControl(old(Model()), device, who, authorized, seconds, id, wall, now).0
      ensures answer == GrantControl(old(Model()), device, who, authorized, seconds, id, wall, now).1
      ensures RoomInv(Model(), now) && Fenced(old(Model()), Model())
      ensures answer.Ok? <==>
                && MIN_LEASE_SECONDS <= seconds <= MAX_LEASE_SECONDS
                && authorized && who.Some? && who.value.role.canControl
                && active && device in participants && old(leaseGeneration) < U64_MAX
      ensures answer.Ok? ==>
                && leaseGeneration == old(leaseGeneration) + 1 && controlLease.Some?
                && var held := controlLease.value;
                   && held.lease == Lease(id, who.value.member, device, leaseGeneration, wall + seconds * SECOND)
                   && now < held.expiresAt == now + seconds * SECOND <= now + MAX_LEASE_SECONDS * SECOND
                   && HearsOnly(Model(), held.lease)
      ensures answer.Err? ==> Model() == old(Model())
    {
      GrantKeepsInv(Model(), device, who, authorized, seconds, id, wall, now);
      if seconds < MIN_LEASE_SECONDS || seconds > MAX_LEASE_SECONDS {
        return Err(Validation);
      }
      if !authorized || who.None? || !who.value.role.canControl {
        return Err(PermissionDenied);
      }
      if !active || device !in participants {
        return Err(PermissionDenied);
      }
      if leaseGeneration >= U64_MAX {
        return Err(Unavailable);
      }
      leaseGeneration := leaseGeneration + 1;
      var lease := Lease(id, who.value.member, device, leaseGeneration, wall + seconds * SECOND);
      controlLease := Some(HeldLease(lease, now + seconds * SECOND));
      ExpireLease(now);
      OnlyTheHolderIsHeard(Model());
      return Ok(());
    }

    /** A relay's lease is taken over only if it is newer than every lease so far, or is the one
        already held; the generation never goes back, and nobody but its holder is heard then. */
    method ApplyControlLease(lease: Lease, who: Option<Membership>, authorized: bool, wall: Instant, now: Instant)
      returns (answer: Result<()>)
      requires RoomInv(Model(), now)
      modifies this
      ensures Model() == ApplyLease(old(Model()), lease, who, authorized, wall, now).0
      ensures answer == ApplyLease(old(Model()), lease, who, authorized, wall, now).1
      ensures RoomInv(Model(), now) && Fenced(old(Model()), Model())
      ensures answer.Ok? <==>
                && lease.generation > 0 && 0 < lease.expiry - wall <= MAX_LEASE_SECONDS * SECOND
                && authorized && who.Some? && who.value.role.canControl && who.value.member == lease.member
                && lease.device in participants && participants[lease.device].member == lease.member
                && (lease.generation > old(leaseGeneration)
                    || (lease.generation == old(leaseGeneration)
                        && old(controlLease).Some? && old(controlLease).value.lease == lease))
      ensures answer.Ok? ==>
                leaseGeneration == lease.generation
                && if controlLease.Some?
                   then controlLease.value.lease == lease && now < controlLease.value.expiresAt
                        && HearsOnly(Model(), lease)
                   else RefusesInput(Model())
      ensures answer.Ok? && lease.generation > old(leaseGeneration) ==>
                controlLease == Some(HeldLease(lease, now + (lease.expiry - wall)))
      ensures answer.Ok? && lease.generation == old(leaseGeneration) ==> OnlyLapses(old(Model()), Model(), now)
      ensures active == old(active) && participants == old(participants)
      ensures answer.Err? ==> Model() == old(Model())
    {
      ApplyKeepsInv(Model(), lease, who, authorized, wall, now);
      var remaining := lease.expiry - wall;
      if lease.generation == 0 || remaining <= 0 || remaining > 5 * 60 * SECOND {
        return Err(Validation);
      }
      if !authorized || who.None? || who.value.member != lease.member || !who.value.role.canControl {
        return Err(PermissionDenied);
      }
      if lease.device !in participants || participants[lease.device].member != lease.member {
        return Err(PermissionDenied);
      }
      if lease.generation < leaseGeneration {
        return Err(Validation);
      }
      if lease.generation == leaseGeneration {
        if controlLease.Some? && controlLease.value.lease == lease {
          OnlyTheHolderIsHeard(Model());
          ExpireLease(now);
          return Ok(());
        }
        return Err(Validation);
      }
      leaseGeneration := lease.generation;
      controlLease := Some(HeldLease(lease, now + remaining));
      ExpireLease(now);
      OnlyTheHolderIsHeard(Model());
      return Ok(());
    }

    /** A removed device is not heard any more, at any time; nobody else loses anything. */
    method Remove(device: DeviceId, authorized: bool, now: Instant) returns (answer: Result<()>)
      requires RoomInv(Model(), now)
      modifies this`participants, this`controlLease
      ensures Model() == RemoveParticipant(old(Model()), device, authorized, now).0
      ensures answer == RemoveParticipant(old(Model()), device, authorized, now).1
      ensures RoomInv(Model(), now) && Calm(old(Model()), Model())
      ensures answer.Ok? <==> authorized && device != host.device
      ensures answer.Ok? ==> participants == old(participants) - {device} && DeafTo(Model(), device)
      ensures answer.Ok? && KeptBy(old(controlLease), device, now) ==> controlLease == old(controlLease)
      ensures answer.Err? ==> Model() == old(Model())
    {
      RemoveKeepsInv(Model(), device, authorized, now);
      if !authorized {
        return Err(PermissionDenied);
      }
      if device == host.device {
        return Err(Validation);
      }
      participants := participants - {device};
      if controlLease.Some? && controlLease.value.lease.device == device {
        controlLease := None;
      }
      ExpireLease(now);
      NonParticipantsAreNotHeard(Model(), device);
      return Ok(());
    }

    /** Nobody is heard until a lease of a later generation; everything else stays. */
    method Revoke(authorized: bool, ghost now: Instant) returns (answer: Result<()>)
      requires RoomInv(Model(), now)
      modifies this`controlLease
      ensures Model() == RevokeControl(old(Model()), authorized).0
      ensures answer == RevokeControl(old(Model()), authorized).1
      ensures RoomInv(Model(), now) && Calm(old(Model()), Model())
      ensures answer.Ok? <==> authorized
      ensures answer.Ok? ==> RefusesInput(Model())
      ensures answer.Err? ==> Model() == old(Model())
    {
      if !authorized {
        return Err(PermissionDenied);
      }
      controlLease := None;
      WithoutALeaseNothingIsHeard(Model());
      return Ok(());
    }

    /** Only the host closes the room; then it neither speaks nor hears, and lets nobody in. */
    method CloseRoom(authorized: bool, ghost now: Instant) returns (answer: Result<()>)
      requires RoomInv(Model(), now)
      modifies this
      ensures Model() == CloseBy(old(Model()), authorized).0 && answer == CloseBy(old(Model()), authorized).1
      ensures RoomInv(Model(), now)
      ensures answer.Ok? <==> authorized
      ensures answer.Ok? ==> Silent(Model())
      ensures leaseGeneration == old(leaseGeneration) && nextOutputSequence == old(nextOutputSequence)
      ensures participants == old(participants) && encryptedTransportEnabled == old(encryptedTransportEnabled)
      ensures answer.Err? ==> Model() == old(Model())
    {
      if !authorized {
        return Err(PermissionDenied);
      }
      active := false;
      controlLease := None;
      replay := [];
      replayBytes := 0;
      ClosedRoomsAreSilent(Model());
      return Ok(());
    }

    /** Exactly the frames pass that were made for the room as it is, by the holder of the lease at its
        next sequence number; and whatever the answer, nobody loses a live lease by it. */
    method CheckEncryptedInput(f: Frame, who: Option<Membership>, authorized: bool, now: Instant)
      returns (answer: Result<()>)
      requires RoomInv(Model(), now)
      modifies this`controlLease
      ensures Model() == CheckInput(old(Model()), f, who, authorized, now).0
      ensures answer == CheckInput(old(Model()), f, who, authorized, now).1
      ensures RoomInv(Model(), now) && Calm(old(Model()), Model())
      ensures answer.Ok? <==>
                && MadeFor(old(Model()), f, who)
                && MayInput(old(Model()), f.device, who, authorized, f.leaseId.value, f.sequence, now)
      ensures OnlyLapses(old(Model()), Model(), now)
    {
      CheckKeepsInv(Model(), f, who, authorized, now);
      CheckPassesExactly(Model(), f, who, authorized, now);
      if f.direction != Input || f.sequence == 0 || f.leaseGeneration == 0 || f.leaseId.None? {
        return Err(Validation);
      }
      if who.None? || who.value.member != f.member || !who.value.role.canControl || !authorized {
        return Err(PermissionDenied);
      }
      ExpireLease(now);
      if controlLease.None? {
        return Err(PermissionDenied);
      }
      var lease := controlLease.value.lease;
      if !active || host.epoch != f.epoch || f.device !in participants
         || participants[f.device].member != f.member || participants[f.device].nextInput != f.sequence
         || lease.id != f.leaseId.value || lease.device != f.device
         || lease.member != f.member || lease.generation != f.leaseGeneration
      {
        return Err(PermissionDenied);
      }
      return Ok(());
    }

    /** Exactly the next input of the lease's holder is accepted, and it is used up by that: the room
        never hears it again until the device's sequence starts anew. */
    method ReceiveInput(device: DeviceId, who: Option<Membership>, authorized: bool, leaseId: LeaseId,
                        sequence: nat, payload: Payload, now: Instant)
      returns (answer: Result<Payload>)
      requires RoomInv(Model(), now)
      modifies this`controlLease, this`participants
      ensures Model() == CommitInput(old(Model()), device, who, authorized, leaseId, sequence, payload, now).0
      ensures answer == CommitInput(old(Model()), device, who, authorized, leaseId, sequence, payload, now).1
      ensures RoomInv(Model(), now) && Calm(old(Model()), Model())
      ensures answer.Ok? <==>
                ValidPayload(payload) && MayInput(old(Model()), device, who, authorized, leaseId, sequence, now)
                && sequence < U64_MAX
      ensures answer.Ok? ==>
                && answer.value == payload
                && participants == old(participants)[device := old(participants)[device].(nextInput := sequence + 1)]
                && controlLease == old(controlLease) && controlLease.Some? && now < controlLease.value.expiresAt
                && HearsOnly(old(Model()), controlLease.value.lease) && UsedUp(Model(), device, sequence)
      ensures answer.Err? ==> OnlyLapses(old(Model()), Model(), now)
    {
      CommitPassesExactly(Model(), device, who, authorized, leaseId, sequence, payload, now);
      CommitKeepsInv(Model(), device, who, authorized, leaseId, sequence, payload, now);
      if !ValidPayload(payload) {
        return Err(Validation);
      }
      if !authorized || who.None? || !who.value.role.canControl {
        return Err(PermissionDenied);
      }
      ExpireLease(now);
      if !active {
        return Err(Unavailable);
      }
      if controlLease.None? {
        return Err(PermissionDenied);
      }
      var lease := controlLease.value.lease;
      if lease.id != leaseId || lease.device != device || lease.member != who.value.member {
        return Err(PermissionDenied);
      }
      if device !in participants {
        return Err(PermissionDenied);
      }
      var participant := participants[device];
      if participant.nextInput != sequence {
        return Err(Validation);
      }
      if participant.nextInput >= U64_MAX {
        return Err(Unavailable);
      }
      OnlyTheHolderIsHeard(Model());
      participants := participants[device := participant.(nextInput := participant.nextInput + 1)];
      OtherSequencesAreRefused(Model(), device, sequence);
      return Ok(payload);
    }
  }

  /** Of all frames a client takes only the one the host signed next. */
  ghost predicate WaitsFor(c: TeamProtocol.Client, sequence: nat) {
    forall f, authorized, verified :: TeamProtocol.DecryptOutput(c, f, authorized, verified).1.Ok? <==>
      authorized && verified && f == HostFrame(c.host, sequence, f.payload) && sequence < U64_MAX
  }

  lemma ClientsWaitForTheNextFrame(c: TeamProtocol.Client)
    requires c.nextOutput >= 1
    ensures WaitsFor(c, c.nextOutput)
  {
  }

  class ClientRoomState {
    const host: Host
    const localMember: MemberId
    const localDevice: DeviceId
    var nextOutputSequence: nat
    var nextInputSequence: nat

    function Model(): TeamProtocol.Client
      reads this
    {
      TeamProtocol.Client(host, localMember, localDevice, nextOutputSequence, nextInputSequence)
    }

    ghost predicate Valid()
      reads this
    {
      nextOutputSequence >= 1 && nextInputSequence >= 1
    }

    /** An accepted invitation: the session waits for the frame after the one it names. */
    constructor (invitation: Invitation)
      requires TeamProtocol.AcceptInvitation(invitation).Ok?
      ensures Valid() && Model() == TeamProtocol.AcceptInvitation(invitation).value
      ensures host == invitation.host && WaitsFor(Model(), invitation.replayFrom + 1)
    {
      host := invitation.host;
      localMember := invitation.recipientMember;
      localDevice := invitation.recipient;
      nextOutputSequence := invitation.replayFrom + 1;
      nextInputSequence := invitation.nextInput;
      new;
      ClientsWaitForTheNextFrame(Model());
    }

    /** A frame is shown exactly when the host signed it as the next one, and only once: the session
        waits for the one after it then. */
    method DecryptOutput(f: Frame, authorized: bool, verified: bool) returns (answer: Result<Payload>)
      requires Valid()
      modifies this`nextOutputSequence
      ensures Valid() && Model() == TeamProtocol.DecryptOutput(old(Model()), f, authorized, verified).0
      ensures answer == TeamProtocol.DecryptOutput(old(Model()), f, authorized, verified).1
      ensures answer.Ok? <==>
                authorized && verified && old(nextOutputSequence) < U64_MAX
                && f == HostFrame(host, old(nextOutputSequence), f.payload)
      ensures answer.Ok? ==> answer.value == f.payload && nextOutputSequence == old(nextOutputSequence) + 1
      ensures answer.Err? ==> Model() == old(Model())
      ensures WaitsFor(Model(), nextOutputSequence)
    {
      ClientsWaitForTheNextFrame(Model());
      if f.room != host.room {
        return Err(NotFound);
      }
      if f.epoch != host.epoch || f.member != host.member || f.device != host.device || f.direction != Output
         || f.leaseId.Some? || f.leaseGeneration != 0 || f.sequence == 0
      {
        return Err(Validation);
      }
      if !authorized || !verified {
        return Err(PermissionDenied);
      }
      if f.sequence != nextOutputSequence {
        return Err(Validation);
      }
      if nextOutputSequence >= U64_MAX {
        return Err(Unavailable);
      }
      nextOutputSequence := nextOutputSequence + 1;
      ClientsWaitForTheNextFrame(Model());
      return Ok(f.payload);
    }

    /** Input frames of a session carry consecutive sequence numbers, starting with the one the
        invitation named; a refused call uses none up. */
    method EncryptInput(leaseId: LeaseId, generation: nat, payload: Payload, authorized: bool)
      returns (answer: Result<Frame>)
      requires Valid()
      modifies this`nextInputSequence
      ensures Valid()
      ensures answer.Ok? <==>
                generation != 0 && authorized && ValidPayload(payload) && old(nextInputSequence) < U64_MAX
      ensures answer.Ok? ==>
                answer.value == Frame(host.room, host.epoch, localMember, localDevice, Input,
                                      old(nextInputSequence), Some(leaseId), generation, payload)
      ensures nextInputSequence == old(nextInputSequence) + (if answer.Ok? then 1 else 0)
    {
      if generation == 0 {
        return Err(Validation);
      }
      if !authorized {
        return Err(PermissionDenied);
      }
      if !ValidPayload(payload) {
        return Err(Validation);
      }
      var sequence := nextInputSequence;
      if sequence >= U64_MAX {
        return Err(Unavailable);
      }
      nextInputSequence := sequence + 1;
      return Ok(Frame(host.room, host.epoch, localMember, localDevice, Input, sequence, Some(leaseId),
                      generation, payload));
    }
  }

  /** A session begins with a proper invitation, and only with one. */
  method AcceptInvitation(invitation: Invitation) returns (answer: Result<ClientRoomState>)
    ensures answer.Ok? <==> invitation.nextInput >= 1 && invitation.replayFrom < U64_MAX
    ensures answer.Err? ==> answer.error == Validation
    ensures answer.Ok? ==>
              && fresh(answer.value) && answer.value.Valid() && answer.value.host == invitation.host
              && answer.value.localDevice == invitation.recipient
              && answer.value.localMember == invitation.recipientMember
              && answer.value.nextInputSequence == invitation.nextInput
              && WaitsFor(answer.value.Model(), invitation.replayFrom + 1)
  {
    if invitation.nextInput == 0 || invitation.replayFrom >= U64_MAX {
      return Err(Validation);
    }
    var session := new ClientRoomState(invitation);
    return Ok(session);
  }
}
