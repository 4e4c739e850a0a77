/** Saving, duplicating and purging a connection: each command changes several stores one after
    another and undoes what it did when a later step fails. */
module ConnectionCommands {
  import opened Base
  import opened ConnectionStore

  /** The steps that can fail. */
  datatype Step =
    | LoadSecret | SaveSecret | DeleteSecret
    | LoadKey | SaveKey | DeleteKey | CopyKey
    | LoadCertificate | InspectCertificate | SaveCertificate | DeleteCertificate | CopyCertificate
    | LoadDrive | DeleteDrive | CopyDrive
    | LoadOptions | EncodeOptions | SaveOptions
    | GetRow | FindId | WriteRow | ReadBack | SetReference | ReadBackReference | PurgeRow

  /** Which steps work, and the bookmark made for a path: none when the record is too large. */
  datatype World = World(works: Step -> bool, bookmark: string -> Option<string>)

  // ---- saving -----------------------------------------------------------------

  /** The live row a save finds; a failing read counts as none. */
  function Existing(s: Stores, id: Id, world: World): Option<Row> {
    if world.works(GetRow) && LiveRow(s.rows, id) then Some(s.rows[id]) else None
  }

  predicate GivesSecret(input: Input) {
    input.credential.Some? && input.credential.value != ""
  }

  predicate AuthChanges(existing: Option<Row>, input: Input) {
    existing.Some? && existing.value.auth != input.auth
  }

  predicate LacksRdpSecret(existing: Option<Row>, input: Input) {
    input.protocol == "rdp" && !GivesSecret(input) && !(existing.Some? && existing.value.reference.Some?)
  }

  predicate UsesKey(auth: string) {
    auth == "privateKey" || auth == "sshCertificate"
  }

  predicate KeepsKey(s: Stores, existing: Option<Row>, input: Input) {
    input.id in s.keys && existing.Some? && UsesKey(existing.value.auth) && existing.value.key == input.key
  }

  predicate KeepsCertificate(s: Stores, existing: Option<Row>, input: Input) {
    input.id in s.certificates && existing.Some? && existing.value.auth == "sshCertificate"
    && existing.value.certificate == input.certificate
  }

  function PathOf(path: Option<string>): string {
    if path.Some? then path.value else ""
  }

  function SavedSecrets(s: Stores, existing: Option<Row>, input: Input): Values {
    if UsesAgent(input.protocol, input.auth) then Put(s.secrets, input.id, None)
    else if GivesSecret(input) then Put(s.secrets, input.id, input.credential)
    else if AuthChanges(existing, input) then Put(s.secrets, input.id, None)
    else s.secrets
  }

  function SavedKeys(s: Stores, existing: Option<Row>, input: Input, world: World): Values {
    if UsesAgent(input.protocol, input.auth) then Put(s.keys, input.id, None)
    else if KeepsKey(s, existing, input) then s.keys
    else if UsesKey(input.auth) then Put(s.keys, input.id, world.bookmark(PathOf(input.key)))
    else Put(s.keys, input.id, None)
  }

  function SavedCertificates(s: Stores, existing: Option<Row>, input: Input, world: World): Values {
    if UsesAgent(input.protocol, input.auth) then Put(s.certificates, input.id, None)
    else if KeepsCertificate(s, existing, input) then s.certificates
    else if input.auth == "sshCertificate" then
      Put(s.certificates, input.id, world.bookmark(PathOf(input.certificate)))
    else Put(s.certificates, input.id, None)
  }

  function SavedRows(s: Stores, input: Input): map<Id, Row> {
    var gives := !UsesAgent(input.protocol, input.auth) && GivesSecret(input);
    Upsert(s.rows, input, if gives then Some(Reference(input.id)) else None)
  }

  function Saved(s: Stores, input: Input, world: World): Stores {
    var existing := Existing(s, input.id, world);
    s.(secrets := SavedSecrets(s, existing, input),
       keys := SavedKeys(s, existing, input, world),
       certificates := SavedCertificates(s, existing, input, world),
       rows := SavedRows(s, input))
  }

  predicate SecretStepsWork(existing: Option<Row>, input: Input, world: World) {
    if UsesAgent(input.protocol, input.auth) then world.works(LoadSecret) && world.works(DeleteSecret)
    else if GivesSecret(input) then world.works(LoadSecret) && world.works(SaveSecret)
    else AuthChanges(existing, input) ==> world.works(LoadSecret) && world.works(DeleteSecret)
  }

  predicate KeyStepWorks(s: Stores, existing: Option<Row>, input: Input, world: World) {
    if UsesAgent(input.protocol, input.auth) then world.works(DeleteKey)
    else if KeepsKey(s, existing, input) then true
    else if UsesKey(input.auth) then world.works(SaveKey)
    else world.works(DeleteKey)
  }

  predicate CertificateStepWorks(s: Stores, existing: Option<Row>, input: Input, world: World) {
    if UsesAgent(input.protocol, input.auth) then world.works(DeleteCertificate)
    else if KeepsCertificate(s, existing, input) then true
    else if input.auth == "sshCertificate" then world.works(InspectCertificate) && world.works(SaveCertificate)
    else world.works(DeleteCertificate)
  }

  /** The save gets as far as writing the row. */
  predicate SaveReachesTheRow(s: Stores, input: Input, valid: bool, world: World) {
    var existing := Existing(s, input.id, world);
    && valid && world.works(LoadKey) && world.works(LoadCertificate)
    && !LacksRdpSecret(existing, input)
    && SecretStepsWork(existing, input, world)
    && KeyStepWorks(s, existing, input, world)
    && CertificateStepWorks(s, existing, input, world)
    && world.works(WriteRow)
  }

  predicate AgentStepsWork(world: World) {
    world.works(LoadSecret) && world.works(DeleteSecret) && world.works(DeleteKey) && world.works(DeleteCertificate)
  }

  function SavedForAgent(s: Stores, input: Input): Stores {
    s.(secrets := Put(s.secrets, input.id, None), keys := Put(s.keys, input.id, None),
       certificates := Put(s.certificates, input.id, None), rows := Upsert(s.rows, input, None))
  }

  /** Whatever a save made of the three stores, putting back the earlier value undoes it. */
  lemma PutBacks(s: Stores, existing: Option<Row>, input: Input, world: World)
    ensures Put(SavedSecrets(s, existing, input), input.id, Get(s.secrets, input.id)) == s.secrets
    ensures Put(SavedKeys(s, existing, input, world), input.id, Get(s.keys, input.id)) == s.keys
    ensures Put(SavedCertificates(s, existing, input, world), input.id, Get(s.certificates, input.id))
            == s.certificates
    ensures Put(s.keys, input.id, Get(s.keys, input.id)) == s.keys
    ensures Put(s.certificates, input.id, Get(s.certificates, input.id)) == s.certificates
  {
    PutBack(s.secrets, input.id, None);
    PutBack(s.secrets, input.id, input.credential);
    PutBack(s.keys, input.id, None);
    PutBack(s.keys, input.id, world.bookmark(PathOf(input.key)));
    PutBack(s.certificates, input.id, None);
    PutBack(s.certificates, input.id, world.bookmark(PathOf(input.certificate)));
  }

  // ---- duplicating ------------------------------------------------------------

  /** What copying a value from one identifier to another leaves. */
  function Copied(m: Values, from: Id, to: Id): Values {
    if from in m then Put(m, to, Some(m[from])) else m
  }

  function CopyOf(row: Row, id: Id, name: string): Input {
    Input(id, name, row.folder, row.proxy, row.protocol, row.auth, row.key, row.certificate, row.other, None)
  }

  predicate HasOptions(s: Stores, id: Id) {
    id in s.rows && s.rows[id].protocol == "rdp" && StateKey(Rdp, id) in s.named
  }

  /** The copy grows in four steps: the row, the bookmarks, the options, the secret. */
  function WithRow(s: Stores, id: Id, newId: Id, name: string): Stores
    requires id in s.rows
  {
    s.(rows := s.rows[newId := RowOf(CopyOf(s.rows[id], newId, name), None)])
  }

  function WithBookmarks(s: Stores, id: Id, newId: Id): Stores {
    s.(keys := Copied(s.keys, id, newId), certificates := Copied(s.certificates, id, newId))
  }

  function WithOptions(s: Stores, id: Id, newId: Id): Stores {
    if !HasOptions(s, id) then s
    else s.(drives := Copied(s.drives, id, newId),
            named := s.named[StateKey(Rdp, newId) := Options(newId, s.named[StateKey(Rdp, id)].other)])
  }

  function WithSecret(s: Stores, id: Id, newId: Id): Stores
    requires newId in s.rows
  {
    if id !in s.secrets then s
    else s.(secrets := Copied(s.secrets, id, newId),
            rows := s.rows[newId := s.rows[newId].(reference := Some(Reference(newId)))])
  }

  function WithTheRest(s: Stores, id: Id, newId: Id): Stores
    requires newId in s.rows
  {
    WithSecret(WithOptions(WithBookmarks(s, id, newId), id, newId), id, newId)
  }

  function Duplicated(s: Stores, id: Id, newId: Id, name: string): Stores
    requires id in s.rows
  {
    WithTheRest(WithRow(s, id, newId, name), id, newId)
  }

  predicate DuplicateReachesTheRow(s: Stores, id: Id, newId: Id, valid: bool, world: World) {
    && world.works(GetRow) && LiveRow(s.rows, id) && newId != id && valid
    && world.works(FindId) && newId !in s.rows && world.works(WriteRow)
  }

  /** The step of copying the remote-desktop options that fails, if one does. */
  function OptionFailure(s: Stores, id: Id, world: World): Option<Step> {
    if !(id in s.rows && s.rows[id].protocol == "rdp") then None
    else if !world.works(LoadOptions) then Some(LoadOptions)
    else if !HasOptions(s, id) then None
    else if !world.works(CopyDrive) then Some(CopyDrive)
    else if !world.works(EncodeOptions) then Some(EncodeOptions)
    else if !world.works(SaveOptions) then Some(SaveOptions)
    else None
  }

  function SecretFailure(s: Stores, id: Id, world: World): Option<Step> {
    if !world.works(LoadSecret) then Some(LoadSecret)
    else if id !in s.secrets then None
    else if !world.works(SaveSecret) then Some(SaveSecret)
    else if !world.works(SetReference) then Some(SetReference)
    else if !world.works(ReadBackReference) then Some(ReadBackReference)
    else None
  }

  /** The step after the new row's that fails, if one does. */
  function CopyFailure(s: Stores, id: Id, world: World): Option<Step> {
    if !world.works(CopyKey) then Some(CopyKey)
    else if !world.works(CopyCertificate) then Some(CopyCertificate)
    else if OptionFailure(s, id, world).Some? then OptionFailure(s, id, world)
    else SecretFailure(s, id, world)
  }

  function OwnState(id: Id): set<StateKey> {
    {StateKey(Protocol, id), StateKey(Rdp, id), StateKey(Serial, id)}
  }

  /** Nothing in any store belongs to `id`. */
  predicate NoTrace(s: Stores, id: Id) {
    && id !in s.rows && id !in s.secrets && id !in s.keys && id !in s.certificates && id !in s.drives
    && s.named.Keys !! OwnState(id)
  }

  /** A copy under way: everything that differs from `before` belongs to `id`. */
  predicate AgreesElsewhere(before: Stores, now: Stores, id: Id) {
    && now.rows - {id} == before.rows - {id}
    && now.secrets - {id} == before.secrets - {id} && now.keys - {id} == before.keys - {id}
    && now.certificates - {id} == before.certificates - {id} && now.drives - {id} == before.drives - {id}
    && now.named - OwnState(id) == before.named - OwnState(id)
    && now.jumps == before.jumps && now.history == before.history
  }

  /** What clearing up after a failed copy takes away: the row, its state and whatever was copied. */
  function RemoveInserted(s: Stores, id: Id): Stores {
    s.(rows := s.rows - {id}, named := s.named - OwnState(id))
  }

  /** From which stores clearing up takes what is there under the new identifier, besides the row
      and its named state. */
  datatype Erasure = Erasure(keys: bool, certificates: bool, drives: bool, secrets: bool)

  function ErasureAfter(failure: Step): Erasure {
    match failure
    case CopyKey => Erasure(false, false, false, false)
    case CopyCertificate => Erasure(true, false, false, false)
    case LoadOptions | CopyDrive => Erasure(true, true, false, false)
    case EncodeOptions | SaveOptions | LoadSecret | SaveSecret => Erasure(true, true, true, false)
    case _ => Erasure(true, true, true, true)
  }

  function Erased(s: Stores, id: Id, e: Erasure): Stores {
    s.(keys := if e.keys then s.keys - {id} else s.keys,
       certificates := if e.certificates then s.certificates - {id} else s.certificates,
       drives := if e.drives then s.drives - {id} else s.drives,
       secrets := if e.secrets then s.secrets - {id} else s.secrets,
       named := s.named - OwnState(id))
  }

  lemma RemovingNothing(m: Values, id: Id)
    ensures m - {id} == m <==> id !in m
  {
    if id !in m {
      assert forall x :: x in m <==> x in m - {id};
    }
  }

  lemma RemovingNoState(named: map<StateKey, Options>, id: Id)
    ensures named - OwnState(id) == named <==> named.Keys !! OwnState(id)
  {
    if named.Keys !! OwnState(id) {
      assert forall x :: x in named <==> x in named - OwnState(id);
    } else {
      var x :| x in named && x in OwnState(id);
      assert x !in named - OwnState(id);
    }
  }

  /** Exactly when clearing up changes nothing: when nothing was there under the new identifier in the
      stores it clears. */
  lemma ErasingChangesNothingIff(s: Stores, id: Id, e: Erasure)
    ensures Erased(s, id, e) == s
            <==> && (e.keys ==> id !in s.keys) && (e.certificates ==> id !in s.certificates)
                 && (e.drives ==> id !in s.drives) && (e.secrets ==> id !in s.secrets)
                 && s.named.Keys !! OwnState(id)
  {
    RemovingNothing(s.keys, id);
    RemovingNothing(s.certificates, id);
    RemovingNothing(s.drives, id);
    RemovingNothing(s.secrets, id);
    RemovingNoState(s.named, id);
  }

  /** A failed duplicate under an identifier without a trace leaves every store as it was. */
  lemma FailedDuplicateLeavesNoTrace(s: Stores, id: Id, failure: Step)
    requires NoTrace(s, id)
    ensures Erased(s, id, ErasureAfter(failure)) == s
  {
    ErasingChangesNothingIff(s, id, ErasureAfter(failure));
  }

  function WithoutBookmarks(s: Stores, id: Id, drive: bool): Stores {
    s.(keys := Put(s.keys, id, None), certificates := Put(s.certificates, id, None),
       drives := if drive then Put(s.drives, id, None) else s.drives)
  }

  /** Clearing up takes the copy away, whatever had been copied so far. */
  lemma RemovingErases(before: Stores, now: Stores, id: Id, drive: bool, secret: bool)
    requires AgreesElsewhere(before, now, id) && id !in before.rows
    requires now.secrets == if secret then before.secrets - {id} else before.secrets
    requires !drive ==> now.drives == before.drives
    ensures RemoveInserted(WithoutBookmarks(now, id, drive), id)
            == Erased(before, id, Erasure(true, true, drive, secret))
  {
    assert before.rows - {id} == before.rows;
  }

  lemma KeyRemovedErases(before: Stores, now: Stores, id: Id, key: bool)
    requires AgreesElsewhere(before, now, id) && id !in before.rows
    requires now == before.(rows := now.rows, keys := now.keys) && (!key ==> now.keys == before.keys)
    ensures RemoveInserted(if key then now.(keys := Put(now.keys, id, None)) else now, id)
            == Erased(before, id, Erasure(key, false, false, false))
  {
    assert before.rows - {id} == before.rows;
  }

  lemma PutElsewhere(m: Values, id: Id, value: Option<string>)
    ensures Put(m, id, value) - {id} == m - {id}
  {
  }

  lemma KeyAgrees(before: Stores, now: Stores, from: Id, id: Id)
    requires AgreesElsewhere(before, now, id)
    ensures AgreesElsewhere(before, now.(keys := Copied(now.keys, from, id)), id)
  {
    PutElsewhere(now.keys, id, Get(now.keys, from));
  }

  lemma CertificateAgrees(before: Stores, now: Stores, from: Id, id: Id)
    requires AgreesElsewhere(before, now, id)
    ensures AgreesElsewhere(before, now.(certificates := Copied(now.certificates, from, id)), id)
  {
    PutElsewhere(now.certificates, id, Get(now.certificates, from));
  }

  lemma DriveAgrees(before: Stores, now: Stores, from: Id, id: Id)
    requires AgreesElsewhere(before, now, id)
    ensures AgreesElsewhere(before, now.(drives := Copied(now.drives, from, id)), id)
  {
    PutElsewhere(now.drives, id, Get(now.drives, from));
  }

  lemma SecretAgrees(before: Stores, now: Stores, id: Id, secret: string)
    requires AgreesElsewhere(before, now, id)
    ensures var put := now.(secrets := Put(now.secrets, id, Some(secret)));
            AgreesElsewhere(before, put, id)
            && AgreesElsewhere(before, put.(secrets := Put(put.secrets, id, None)), id)
  {
    PutElsewhere(now.secrets, id, Some(secret));
    PutElsewhere(Put(now.secrets, id, Some(secret)), id, None);
  }

  lemma OptionsAgree(before: Stores, now: Stores, id: Id, options: Options)
    requires AgreesElsewhere(before, now, id)
    ensures AgreesElsewhere(before, now.(named := now.named[StateKey(Rdp, id) := options]), id)
  {
    assert now.named[StateKey(Rdp, id) := options] - OwnState(id) == now.named - OwnState(id);
  }

  lemma RowAgrees(before: Stores, now: Stores, id: Id, row: Row)
    requires AgreesElsewhere(before, now, id)
    ensures var put := now.(rows := now.rows[id := row]);
            AgreesElsewhere(before, put, id)
            && AgreesElsewhere(before, put.(secrets := Put(put.secrets, id, None)), id)
  {
    assert now.rows[id := row] - {id} == now.rows - {id};
    PutElsewhere(now.secrets, id, None);
  }

  // ---- purging ----------------------------------------------------------------

  function PurgedRow(s: Stores, id: Id): Stores {
    s.(rows := s.rows - {id},
       named := s.named - OwnState(id),
       jumps := map p | p in s.jumps :: if s.jumps[p] == Some(id) then None else s.jumps[p],
       history := map h | h in s.history && s.history[h] != id :: s.history[h])
  }

  function Purged(s: Stores, id: Id): Stores {
    PurgedRow(s.(secrets := Put(s.secrets, id, None), keys := Put(s.keys, id, None),
                 certificates := Put(s.certificates, id, None), drives := Put(s.drives, id, None)), id)
  }

  predicate PurgeStepsWork(world: World) {
    && world.works(LoadSecret) && world.works(LoadKey) && world.works(LoadCertificate) && world.works(LoadDrive)
    && world.works(DeleteSecret) && world.works(DeleteKey) && world.works(DeleteCertificate)
    && world.works(DeleteDrive) && world.works(PurgeRow)
  }

  // ---- what successful commands leave -----------------------------------------

  /** A save, with its row written, changes nothing that belongs to another connection. */
  lemma SaveKeepsOthers(s: Stores, input: Input, world: World)
    ensures AgreesElsewhere(s, Saved(s, input, world), input.id)
  {
    PutElsewhere(s.secrets, input.id, None);
    PutElsewhere(s.secrets, input.id, input.credential);
    PutElsewhere(s.keys, input.id, None);
    PutElsewhere(s.keys, input.id, world.bookmark(PathOf(input.key)));
    PutElsewhere(s.certificates, input.id, None);
    PutElsewhere(s.certificates, input.id, world.bookmark(PathOf(input.certificate)));
    assert SavedRows(s, input) - {input.id} == s.rows - {input.id};
  }

  /** The row a save leaves holds what was edited. */
  lemma SaveStoresTheInput(s: Stores, input: Input, world: World)
    ensures var row := Saved(s, input, world).rows[input.id];
            && row.live && row.name == input.name && row.folder == input.folder && row.proxy == input.proxy
            && row.protocol == input.protocol && row.auth == input.auth && row.key == input.key
            && row.certificate == input.certificate && row.other == input.other
  {
  }

  /** A save that gives a secret stores it, with a reference to it. */
  lemma SaveStoresTheSecret(s: Stores, input: Input, world: World)
    requires input.credential.Some? && input.credential.value != ""
    requires input.protocol != "ssh" || input.auth !in {"sshAgent", "fido2Agent"}
    ensures var t := Saved(s, input, world);
            && Get(t.secrets, input.id) == input.credential
            && t.rows[input.id].reference == Some(Reference(input.id))
  {
  }

  /** A save that gives none, uses no agent and leaves the kind of authentication as it is, keeps the
      secret and the reference to it: editing a connection does not forget its password. */
  lemma SaveKeepsTheSecret(s: Stores, input: Input, world: World)
    requires input.credential.None? || input.credential.value == ""
    requires input.protocol != "ssh" || input.auth !in {"sshAgent", "fido2Agent"}
    requires input.id in s.rows && s.rows[input.id].auth == input.auth
    ensures var t := Saved(s, input, world);
            && Get(t.secrets, input.id) == Get(s.secrets, input.id)
            && t.rows[input.id].reference == s.rows[input.id].reference
  {
  }

  /** One that gives none and changes the kind of authentication drops both, if it finds the connection
      live; of a deleted connection, or one that could not be read, the secret stays unreferenced. */
  lemma SaveDropsTheSecret(s: Stores, input: Input, world: World)
    requires input.credential.None? || input.credential.value == ""
    requires input.protocol != "ssh" || input.auth !in {"sshAgent", "fido2Agent"}
    requires input.id in s.rows && s.rows[input.id].auth != input.auth
    ensures var t := Saved(s, input, world);
            && t.rows[input.id].reference == None
            && Get(t.secrets, input.id)
               == if s.rows[input.id].live && world.works(GetRow) then None else Get(s.secrets, input.id)
  {
  }

  /** A connection that authenticates through an agent is left with no secret and no bookmark, and a new
      one that gives no secret with no reference. */
  lemma SaveForAnAgentKeepsNothing(s: Stores, input: Input, world: World)
    ensures var t := Saved(s, input, world);
            && (input.protocol == "ssh" && (input.auth == "sshAgent" || input.auth == "fido2Agent") ==>
                  && Get(t.secrets, input.id) == Get(t.keys, input.id) == Get(t.certificates, input.id) == None
                  && t.rows[input.id].reference == None)
            && (input.id !in s.rows && !GivesSecret(input) ==> t.rows[input.id].reference == None)
  {
  }

  /** The private key's bookmark: kept when the live connection used a key or a certificate with the same
      path, made anew when it is to use one with another path, and taken away otherwise. */
  lemma SaveLeavesTheKey(s: Stores, input: Input, world: World)
    requires (input.protocol != "ssh" || input.auth !in {"sshAgent", "fido2Agent"}) && world.works(GetRow)
    ensures var same := && input.id in s.keys && LiveRow(s.rows, input.id)
                        && s.rows[input.id].auth in {"privateKey", "sshCertificate"}
                        && s.rows[input.id].key == input.key;
            Get(Saved(s, input, world).keys, input.id) ==
              if same then Get(s.keys, input.id)
              else if input.auth in {"privateKey", "sshCertificate"} then world.bookmark(PathOf(input.key))
              else None
  {
  }

  /** The certificate's likewise. */
  lemma SaveLeavesTheCertificate(s: Stores, input: Input, world: World)
    requires (input.protocol != "ssh" || input.auth !in {"sshAgent", "fido2Agent"}) && world.works(GetRow)
    ensures var same := && input.id in s.certificates && LiveRow(s.rows, input.id)
                        && s.rows[input.id].auth == "sshCertificate"
                        && s.rows[input.id].certificate == input.certificate;
            Get(Saved(s, input, world).certificates, input.id) ==
              if same then Get(s.certificates, input.id)
              else if input.auth == "sshCertificate" then world.bookmark(PathOf(input.certificate))
              else None
  {
  }

  /** When every step works, a save is refused only for invalid input, or a remote-desktop connection
      without a secret: neither given nor kept. */
  lemma SaveIsRefusedOnlyFor(s: Stores, input: Input, valid: bool, world: World)
    requires forall step :: world.works(step)
    ensures SaveReachesTheRow(s, input, valid, world) <==>
              && valid
              && (input.protocol == "rdp" ==>
                    || (input.credential.Some? && input.credential.value != "")
                    || (LiveRow(s.rows, input.id) && s.rows[input.id].reference.Some?))
  {
  }

  /** A save never leaves a reference without its secret. */
  lemma SaveKeepsSecretsBehindReferences(s: Stores, input: Input, world: World)
    requires SecretsBehindReferences(s.rows, s.secrets)
    ensures var t := Saved(s, input, world);
            SecretsBehindReferences(t.rows, t.secrets)
  {
    var t := Saved(s, input, world);
    SaveKeepsOthers(s, input, world);
    forall id | id in t.rows && t.rows[id].reference.Some? ensures id in t.secrets {
      if id != input.id {
        assert id in s.rows && s.rows[id] == t.rows[id];
      }
    }
  }

  /** When the row was written but could not be read back, the save reports an error and takes the
      secret back.  Then every reference still has its secret if and only if none was given, or the
      connection uses an agent, or it had one before. */
  lemma FailedReadBackMayLoseTheSecret(s: Stores, input: Input)
    requires SecretsBehindReferences(s.rows, s.secrets)
    ensures SecretsBehindReferences(SavedRows(s, input), s.secrets)
            <==> (GivesSecret(input) && !UsesAgent(input.protocol, input.auth) ==> input.id in s.secrets)
  {
    assert input.id in SavedRows(s, input);
  }

  const EMPTY: Stores := Stores(map[], map[], map[], map[], map[], map[], map[], map[])

  /** It happens: a new connection with a password. */
  lemma SecretLostByFailedReadBack(input: Input)
    requires input.protocol == "ssh" && input.auth == "password" && GivesSecret(input)
    ensures !SecretsBehindReferences(SavedRows(EMPTY, input), EMPTY.secrets)
  {
    FailedReadBackMayLoseTheSecret(EMPTY, input);
  }

  /** When every step works, a duplicate is made of every live connection, and refused only for invalid
      input or under an identifier that is taken, by a deleted connection too. */
  lemma DuplicateIsRefusedOnlyFor(s: Stores, id: Id, newId: Id, valid: bool, world: World)
    requires forall step :: world.works(step)
    ensures DuplicateReachesTheRow(s, id, newId, valid, world)
            <==> id in s.rows && s.rows[id].live && valid && newId != id && newId !in s.rows
    ensures CopyFailure(s, id, world) == None
  {
  }

  /** A new row does not change what the other rows say. */
  lemma SameRow(before: Stores, now: Stores, id: Id, newId: Id)
    requires id != newId && now == before.(rows := now.rows) && now.rows - {newId} == before.rows - {newId}
    ensures id in now.rows <==> id in before.rows
    ensures id in before.rows ==> now.rows[id] == before.rows[id]
    ensures HasOptions(now, id) == HasOptions(before, id)
  {
    assert id in now.rows <==> id in now.rows - {newId};
    assert id in before.rows <==> id in before.rows - {newId};
    if id in before.rows {
      assert now.rows[id] == (now.rows - {newId})[id] == (before.rows - {newId})[id] == before.rows[id];
    }
  }

  /** So the steps of a copy ask the same questions of the source whether the row is there or not. */
  lemma SameQuestions(before: Stores, now: Stores, id: Id, newId: Id, world: World)
    requires id != newId && now == before.(rows := now.rows) && now.rows - {newId} == before.rows - {newId}
    ensures id in now.rows <==> id in before.rows
    ensures forall keys, certificates :: OptionFailure(now.(keys := keys, certificates := certificates), id, world)
                                         == OptionFailure(before, id, world)
  {
    SameRow(before, now, id, newId);
  }

  lemma BookmarksAgree(before: Stores, now: Stores, id: Id, newId: Id)
    requires AgreesElsewhere(before, now, newId)
    ensures AgreesElsewhere(before, WithBookmarks(now, id, newId), newId)
  {
    KeyAgrees(before, now, id, newId);
    CertificateAgrees(before, now.(keys := Copied(now.keys, id, newId)), id, newId);
  }

  lemma CopiedOptionsAgree(before: Stores, now: Stores, id: Id, newId: Id)
    requires AgreesElsewhere(before, now, newId)
    ensures AgreesElsewhere(before, WithOptions(now, id, newId), newId)
  {
    if HasOptions(now, id) {
      DriveAgrees(before, now, id, newId);
      OptionsAgree(before, now.(drives := Copied(now.drives, id, newId)), newId,
                   Options(newId, now.named[StateKey(Rdp, id)].other));
    }
  }

  lemma CopiedSecretAgrees(before: Stores, now: Stores, id: Id, newId: Id)
    requires AgreesElsewhere(before, now, newId) && newId in now.rows
    ensures AgreesElsewhere(before, WithSecret(now, id, newId), newId)
  {
    if id in now.secrets {
      SecretAgrees(before, now, newId, now.secrets[id]);
      RowAgrees(before, now.(secrets := Copied(now.secrets, id, newId)), newId,
                now.rows[newId].(reference := Some(Reference(newId))));
    }
  }

  /** Duplicating changes nothing that belongs to another connection, the source included. */
  lemma DuplicateKeepsOthers(s: Stores, id: Id, newId: Id, name: string)
    requires id in s.rows
    ensures AgreesElsewhere(s, Duplicated(s, id, newId, name), newId)
  {
    RowAgrees(s, s, newId, RowOf(CopyOf(s.rows[id], newId, name), None));
    var inserted := WithRow(s, id, newId, name);
    BookmarksAgree(s, inserted, id, newId);
    var marked := WithBookmarks(inserted, id, newId);
    CopiedOptionsAgree(s, marked, id, newId);
    CopiedSecretAgrees(s, WithOptions(marked, id, newId), id, newId);
  }

  /** A duplicate is the source under a new identifier and name, with a secret if the source has one. */
  lemma DuplicateCopiesTheRow(s: Stores, id: Id, newId: Id, name: string)
    requires id in s.rows && id != newId
    ensures var t := Duplicated(s, id, newId, name);
            && newId in t.rows
            && t.rows[newId] == s.rows[id].(name := name, live := true, reference := t.rows[newId].reference)
            && (t.rows[newId].reference.Some? <==> id in s.secrets)
  {
    var marked := WithBookmarks(WithRow(s, id, newId, name), id, newId);
    assert marked.rows[newId].reference == None;
  }

  lemma OptionsStores(s: Stores, id: Id, newId: Id)
    ensures var t := WithOptions(s, id, newId);
            && t == s.(drives := t.drives, named := t.named)
            && t.drives == if HasOptions(s, id) then Copied(s.drives, id, newId) else s.drives
  {
  }

  lemma SecretStores(s: Stores, id: Id, newId: Id)
    requires newId in s.rows
    ensures var t := WithSecret(s, id, newId);
            t == s.(secrets := t.secrets, rows := t.rows) && t.secrets == Copied(s.secrets, id, newId)
  {
  }

  /** Where each store of a duplicate comes from. */
  lemma DuplicatedStores(s: Stores, id: Id, newId: Id, name: string)
    requires id in s.rows && id != newId
    ensures var t := Duplicated(s, id, newId, name);
            && t.secrets == Copied(s.secrets, id, newId) && t.keys == Copied(s.keys, id, newId)
            && t.certificates == Copied(s.certificates, id, newId)
            && t.drives == if HasOptions(s, id) then Copied(s.drives, id, newId) else s.drives
  {
    var inserted := WithRow(s, id, newId, name);
    SameRow(s, inserted, id, newId);
    var marked := WithBookmarks(inserted, id, newId);
    OptionsStores(marked, id, newId);
    SecretStores(WithOptions(marked, id, newId), id, newId);
  }

  lemma CopyArrives(m: Values, from: Id, to: Id)
    requires to !in m
    ensures Get(Copied(m, from, to), to) == Get(m, from)
  {
  }

  lemma DuplicatedOptions(s: Stores, id: Id, newId: Id, name: string)
    requires id in s.rows && id != newId
    ensures var t := Duplicated(s, id, newId, name);
            t.named == if HasOptions(s, id)
                       then s.named[StateKey(Rdp, newId) := Options(newId, s.named[StateKey(Rdp, id)].other)]
                       else s.named
  {
    SameRow(s, WithRow(s, id, newId, name), id, newId);
  }

  /** It has its own copy of everything that is kept for the source. */
  lemma DuplicateCopiesWhatIsKept(s: Stores, id: Id, newId: Id, name: string)
    requires id in s.rows && id != newId
    requires newId !in s.secrets && newId !in s.keys && newId !in s.certificates && newId !in s.drives
    ensures var t := Duplicated(s, id, newId, name);
            && Get(t.secrets, newId) == Get(s.secrets, id) && Get(t.keys, newId) == Get(s.keys, id)
            && Get(t.certificates, newId) == Get(s.certificates, id)
            && Get(t.drives, newId) == (if HasOptions(s, id) then Get(s.drives, id) else None)
            && (HasOptions(s, id) ==>
                  t.named == s.named[StateKey(Rdp, newId) := Options(newId, s.named[StateKey(Rdp, id)].other)])
            && (!HasOptions(s, id) ==> t.named == s.named)
  {
    DuplicatedStores(s, id, newId, name);
    DuplicatedOptions(s, id, newId, name);
    CopyArrives(s.secrets, id, newId);
    CopyArrives(s.keys, id, newId);
    CopyArrives(s.certificates, id, newId);
    CopyArrives(s.drives, id, newId);
  }

  /** Nothing belongs to a purged connection any more, and nothing of any other is touched. */
  lemma PurgeLeavesNoTrace(s: Stores, id: Id)
    ensures var t := Purged(s, id);
            && NoTrace(t, id)
            && t.rows == s.rows - {id} && t.secrets == s.secrets - {id} && t.keys == s.keys - {id}
            && t.certificates == s.certificates - {id} && t.drives == s.drives - {id}
            && (forall k :: k in t.named <==> k in s.named && k.id != id)
            && (forall k :: k in t.named ==> t.named[k] == s.named[k])
            && t.jumps.Keys == s.jumps.Keys
            && (forall p :: p in s.jumps ==> t.jumps[p] == if s.jumps[p] == Some(id) then None else s.jumps[p])
            && (forall h :: h in t.history <==> h in s.history && s.history[h] != id)
            && (forall h :: h in t.history ==> t.history[h] == s.history[h])
            && (SecretsBehindReferences(s.rows, s.secrets) ==> SecretsBehindReferences(t.rows, t.secrets))
  {
    forall k: StateKey ensures k in OwnState(id) <==> k.id == id {
      assert k.kind == Protocol || k.kind == Rdp || k.kind == Serial;
    }
  }

  class App {
    var stores: Stores

    /** `valid` says whether the input passes field validation.  A failed save leaves every store
        as it was, unless the row was written and then could not be read back. */
    method ConnectionSave(input: Input, valid: bool, world: World) returns (answer: Result<Row>)
      modifies this
      ensures answer.Ok? <==> SaveReachesTheRow(old(stores), input, valid, world) && world.works(ReadBack)
      ensures answer.Ok? ==> stores == Saved(old(stores), input, world) && answer.value == stores.rows[input.id]
      ensures answer.Err? && !SaveReachesTheRow(old(stores), input, valid, world) ==> stores == old(stores)
      ensures answer.Err? && SaveReachesTheRow(old(stores), input, valid, world) ==>
                stores == old(stores).(rows := SavedRows(old(stores), input))
    {
      var id := input.id;
      ghost var base := stores;
      if !valid {
        return Err(Validation);
      }
      if !world.works(LoadKey) {
        return Err(Storage);
      }
      var previousKey := Get(stores.keys, id);
      if !world.works(LoadCertificate) {
        return Err(Storage);
      }
      var previousCertificate := Get(stores.certificates, id);
      var existing := Existing(stores, id, world);
      if LacksRdpSecret(existing, input) {
        return Err(Validation);
      }
      if UsesAgent(input.protocol, input.auth) {
        answer := SaveForAgent(input, previousKey, previousCertificate, world);
        return;
      }
      PutBacks(base, existing, input, world);
      var gives := GivesSecret(input);
      var touches := gives || AuthChanges(existing, input);
      if touches && !world.works(LoadSecret) {
        return Err(Storage);
      }
      var previous := if touches then Get(stores.secrets, id) else None;
      if touches && !gives {
        if !world.works(DeleteSecret) {
          return Err(Storage);
        }
        stores := stores.(secrets := Put(stores.secrets, id, None));
      }
      if gives {
        if !world.works(SaveSecret) {
          return Err(Storage);
        }
        stores := stores.(secrets := Put(stores.secrets, id, input.credential));
      }
      assert stores == base.(secrets := SavedSecrets(base, existing, input));
      var keyDone := SaveKeyBookmark(input, existing, world);
      if !keyDone {
        if touches { RestoreSecret(id, previous); }
        RestoreKey(id, previousKey);
        return Err(Storage);
      }
      var certificateDone := SaveCertificateBookmark(input, existing, world);
      if !certificateDone {
        if touches { RestoreSecret(id, previous); }
        RestoreKey(id, previousKey);
        RestoreCertificate(id, previousCertificate);
        return Err(Storage);
      }
      answer := SaveRow(input, if gives then Some(Reference(id)) else None, world);
      if answer.Err? {
        if touches { RestoreSecret(id, previous); }
        RestoreKey(id, previousKey);
        RestoreCertificate(id, previousCertificate);
      }
    }

    /** A connection that authenticates through an agent keeps no secret and no bookmark. */
    method SaveForAgent(input: Input, previousKey: Option<string>, previousCertificate: Option<string>, world: World)
      returns (answer: Result<Row>)
      requires UsesAgent(input.protocol, input.auth)
      requires previousKey == Get(stores.keys, input.id)
      requires previousCertificate == Get(stores.certificates, input.id)
      modifies this
      ensures var works := AgentStepsWork(world) && world.works(WriteRow);
              && (answer.Ok? <==> works && world.works(ReadBack))
              && (answer.Ok? ==> stores == SavedForAgent(old(stores), input) && answer.value == stores.rows[input.id])
              && (answer.Err? && !works ==> stores == old(stores))
              && (answer.Err? && works ==> stores == old(stores).(rows := Upsert(old(stores).rows, input, None)))
    {
      var id := input.id;
      var done, previous := DeleteKept(id, previousKey, world);
      if !done {
        return Err(Storage);
      }
      PutBack(old(stores).secrets, id, None);
      PutBack(old(stores).keys, id, None);
      PutBack(old(stores).certificates, id, None);
      answer := SaveRow(input, None, world);
      if answer.Err? {
        RestoreAll(id, previous, previousKey, previousCertificate);
      }
    }

    /** Takes away the secret and both bookmarks, or nothing. */
    method DeleteKept(id: Id, previousKey: Option<string>, world: World) returns (done: bool, previous: Option<string>)
      requires previousKey == Get(stores.keys, id)
      modifies this
      ensures done <==> AgentStepsWork(world)
      ensures done ==> previous == Get(old(stores).secrets, id)
      ensures stores == if done
                        then old(stores).(secrets := Put(old(stores).secrets, id, None),
                                          keys := Put(old(stores).keys, id, None),
                                          certificates := Put(old(stores).certificates, id, None))
                        else old(stores)
    {
      previous := None;
      if !world.works(LoadSecret) {
        return false, previous;
      }
      previous := Get(stores.secrets, id);
      if !world.works(DeleteSecret) {
        return false, previous;
      }
      PutBack(stores.secrets, id, None);
      PutBack(stores.keys, id, None);
      stores := stores.(secrets := Put(stores.secrets, id, None));
      if !world.works(DeleteKey) {
        RestoreSecret(id, previous);
        return false, previous;
      }
      stores := stores.(keys := Put(stores.keys, id, None));
      if !world.works(DeleteCertificate) {
        RestoreSecret(id, previous);
        RestoreKey(id, previousKey);
        return false, previous;
      }
      stores := stores.(certificates := Put(stores.certificates, id, None));
      return true, previous;
    }

    method SaveKeyBookmark(input: Input, existing: Option<Row>, world: World) returns (done: bool)
      requires !UsesAgent(input.protocol, input.auth)
      modifies this
      ensures done == KeyStepWorks(old(stores), existing, input, world)
      ensures stores == if done then old(stores).(keys := SavedKeys(old(stores), existing, input, world))
                        else old(stores)
    {
      if KeepsKey(stores, existing, input) {
        return true;
      }
      if UsesKey(input.auth) {
        if !world.works(SaveKey) {
          return false;
        }
        stores := stores.(keys := Put(stores.keys, input.id, world.bookmark(PathOf(input.key))));
      } else {
        if !world.works(DeleteKey) {
          return false;
        }
        stores := stores.(keys := Put(stores.keys, input.id, None));
      }
      return true;
    }

    method SaveCertificateBookmark(input: Input, existing: Option<Row>, world: World) returns (done: bool)
      requires !UsesAgent(input.protocol, input.auth)
      modifies this
      ensures done == CertificateStepWorks(old(stores), existing, input, world)
      ensures stores == if done
                        then old(stores).(certificates := SavedCertificates(old(stores), existing, input, world))
                        else old(stores)
    {
      if KeepsCertificate(stores, existing, input) {
        return true;
      }
      if input.auth == "sshCertificate" {
        if !world.works(InspectCertificate) || !world.works(SaveCertificate) {
          return false;
        }
        var bookmark := world.bookmark(PathOf(input.certificate));
        stores := stores.(certificates := Put(stores.certificates, input.id, bookmark));
      } else {
        if !world.works(DeleteCertificate) {
          return false;
        }
        stores := stores.(certificates := Put(stores.certificates, input.id, None));
      }
      return true;
    }

    /** The statement may take effect and the read that follows it still fail. */
    method SaveRow(input: Input, reference: Option<string>, world: World) returns (answer: Result<Row>)
      modifies this
      ensures answer.Ok? <==> world.works(WriteRow) && world.works(ReadBack)
      ensures stores == if world.works(WriteRow)
                        then old(stores).(rows := Upsert(old(stores).rows, input, reference)) else old(stores)
      ensures answer.Ok? ==> answer.value == stores.rows[input.id]
    {
      if !world.works(WriteRow) {
        return Err(Storage);
      }
      stores := stores.(rows := Upsert(stores.rows, input, reference));
      if !world.works(ReadBack) {
        return Err(Storage);
      }
      return Ok(stores.rows[input.id]);
    }

    method RestoreSecret(id: Id, previous: Option<string>)
      modifies this
      ensures stores == old(stores).(secrets := Put(old(stores).secrets, id, previous))
    {
      stores := stores.(secrets := Put(stores.secrets, id, previous));
    }

    method RestoreKey(id: Id, previous: Option<string>)
      modifies this
      ensures stores == old(stores).(keys := Put(old(stores).keys, id, previous))
    {
      stores := stores.(keys := Put(stores.keys, id, previous));
    }

    method RestoreCertificate(id: Id, previous: Option<string>)
      modifies this
      ensures stores == old(stores).(certificates := Put(old(stores).certificates, id, previous))
    {
      stores := stores.(certificates := Put(stores.certificates, id, previous));
    }

    method RestoreAll(id: Id, secret: Option<string>, key: Option<string>, certificate: Option<string>)
      modifies this
      ensures stores == old(stores).(secrets := Put(old(stores).secrets, id, secret),
                                     keys := Put(old(stores).keys, id, key),
                                     certificates := Put(old(stores).certificates, id, certificate))
    {
      RestoreSecret(id, secret);
      RestoreKey(id, key);
      RestoreCertificate(id, certificate);
    }

    method RestoreDrive(id: Id, previous: Option<string>)
      modifies this
      ensures stores == old(stores).(drives := Put(old(stores).drives, id, previous))
    {
      stores := stores.(drives := Put(stores.drives, id, previous));
    }

    /** A failed purge puts everything back; a successful one leaves no trace. */
    method ConnectionPurge(id: Id, world: World) returns (answer: Result<()>)
      modifies this
      ensures answer.Ok? <==> PurgeStepsWork(world) && id in old(stores).rows && !old(stores).rows[id].live
      ensures answer.Ok? ==> stores == Purged(old(stores), id)
      ensures answer.Err? ==> stores == old(stores)
    {
      if !world.works(LoadSecret) || !world.works(LoadKey) || !world.works(LoadCertificate) || !world.works(LoadDrive) {
        return Err(Storage);
      }
      var previous := Get(stores.secrets, id);
      var previousKey := Get(stores.keys, id);
      var previousCertificate := Get(stores.certificates, id);
      var previousDrive := Get(stores.drives, id);
      PutBack(stores.secrets, id, None);
      PutBack(stores.keys, id, None);
      PutBack(stores.certificates, id, None);
      PutBack(stores.drives, id, None);
      if !world.works(DeleteSecret) {
        return Err(Storage);
      }
      stores := stores.(secrets := Put(stores.secrets, id, None));
      if !world.works(DeleteKey) {
        RestoreSecret(id, previous);
        return Err(Storage);
      }
      stores := stores.(keys := Put(stores.keys, id, None));
      if !world.works(DeleteCertificate) {
        RestoreSecret(id, previous);
        RestoreKey(id, previousKey);
        return Err(Storage);
      }
      stores := stores.(certificates := Put(stores.certificates, id, None));
      if !world.works(DeleteDrive) {
        RestoreSecret(id, previous);
        RestoreKey(id, previousKey);
        RestoreCertificate(id, previousCertificate);
        RestoreDrive(id, previousDrive);
        return Err(Storage);
      }
      stores := stores.(drives := Put(stores.drives, id, None));
      if !world.works(PurgeRow) || id !in stores.rows || stores.rows[id].live {
        RestoreSecret(id, previous);
        RestoreKey(id, previousKey);
        RestoreCertificate(id, previousCertificate);
        RestoreDrive(id, previousDrive);
        return Err(if world.works(PurgeRow) then NotFound else Storage);
      }
      stores := PurgedRow(stores, id);
      return Ok(());
    }

    /** Before its row is written a failed duplicate has changed nothing, and after it exactly what the
        failing step's clearing up erases under the new identifier; but a row that was written and
        could not be read back stays. */
    method ConnectionDuplicate(id: Id, newId: Id, name: string, valid: bool, world: World)
      returns (answer: Result<Row>)
      modifies this
      ensures var was := old(stores);
              var reached := DuplicateReachesTheRow(was, id, newId, valid, world);
              var failure := CopyFailure(was, id, world);
              && (answer.Ok? <==> reached && world.works(ReadBack) && failure.None?)
              && (answer.Ok? ==> stores == Duplicated(was, id, newId, name) && answer.value == stores.rows[newId])
              && (!reached ==> stores == was)
              && (reached && !world.works(ReadBack) ==> stores == WithRow(was, id, newId, name))
              && (reached && world.works(ReadBack) && failure.Some? ==>
                    stores == Erased(was, newId, ErasureAfter(failure.value)))
    {
      if !world.works(GetRow) {
        return Err(Storage);
      }
      if !LiveRow(stores.rows, id) {
        return Err(NotFound);
      }
      if newId == id || !valid {
        return Err(Validation);
      }
      if !world.works(FindId) {
        return Err(Storage);
      }
      if newId in stores.rows {
        return Err(Validation);
      }
      ghost var base := stores;
      var inserted := InsertRow(CopyOf(stores.rows[id], newId, name), world);
      if inserted.Err? {
        return inserted;
      }
      RowAgrees(base, base, newId, RowOf(CopyOf(base.rows[id], newId, name), None));
      var failure := CopyAll(id, newId, world, base);
      return if failure.Some? then Err(Storage) else Ok(stores.rows[newId]);
    }

    /** Everything after the new row: bookmarks, options, secret. */
    method CopyAll(id: Id, newId: Id, world: World, ghost base: Stores) returns (failure: Option<Step>)
      requires id != newId && id in base.rows && newId !in base.rows && newId in stores.rows
      requires AgreesElsewhere(base, stores, newId) && stores == base.(rows := stores.rows)
      modifies this
      ensures failure == CopyFailure(base, id, world)
      ensures failure.None? ==> stores == WithTheRest(old(stores), id, newId)
      ensures failure.Some? ==> stores == Erased(base, newId, ErasureAfter(failure.value))
    {
      SameQuestions(base, stores, id, newId, world);
      failure := CopyBookmarks(id, newId, world, base);
      if failure.None? {
        failure := CopyOptions(id, newId, world, base);
        if failure.None? {
          failure := CopySecret(id, newId, world, base);
        }
      }
    }

    method InsertRow(input: Input, world: World) returns (answer: Result<Row>)
      requires input.id !in stores.rows
      modifies this
      ensures answer.Ok? <==> world.works(WriteRow) && world.works(ReadBack)
      ensures stores == if world.works(WriteRow)
                        then old(stores).(rows := old(stores).rows[input.id := RowOf(input, None)]) else old(stores)
    {
      if !world.works(WriteRow) {
        return Err(Storage);
      }
      stores := stores.(rows := stores.rows[input.id := RowOf(input, None)]);
      if !world.works(ReadBack) {
        return Err(Storage);
      }
      return Ok(stores.rows[input.id]);
    }

    method CopyBookmarks(id: Id, newId: Id, world: World, ghost base: Stores) returns (failure: Option<Step>)
      requires newId !in base.rows && AgreesElsewhere(base, stores, newId)
      requires stores == base.(rows := stores.rows)
      modifies this
      ensures failure == if !world.works(CopyKey) then Some(CopyKey)
                         else if !world.works(CopyCertificate) then Some(CopyCertificate) else None
      ensures failure.None? ==> stores == WithBookmarks(old(stores), id, newId) && AgreesElsewhere(base, stores, newId)
      ensures failure.Some? ==> stores == Erased(base, newId, ErasureAfter(failure.value))
    {
      if !world.works(CopyKey) {
        KeyRemovedErases(base, stores, newId, false);
        stores := RemoveInserted(stores, newId);
        return Some(CopyKey);
      }
      KeyAgrees(base, stores, id, newId);
      stores := stores.(keys := Copied(stores.keys, id, newId));
      if !world.works(CopyCertificate) {
        KeyRemovedErases(base, stores, newId, true);
        RestoreKey(newId, None);
        stores := RemoveInserted(stores, newId);
        return Some(CopyCertificate);
      }
      CertificateAgrees(base, stores, id, newId);
      stores := stores.(certificates := Copied(stores.certificates, id, newId));
      return None;
    }

    method CopyOptions(id: Id, newId: Id, world: World, ghost base: Stores) returns (failure: Option<Step>)
      requires id in stores.rows && newId !in base.rows && AgreesElsewhere(base, stores, newId)
      requires stores.secrets == base.secrets && stores.drives == base.drives
      modifies this
      ensures failure == OptionFailure(old(stores), id, world)
      ensures failure.None? ==> stores == WithOptions(old(stores), id, newId) && AgreesElsewhere(base, stores, newId)
      ensures failure.Some? ==> stores == Erased(base, newId, ErasureAfter(failure.value))
    {
      if stores.rows[id].protocol == "rdp" {
        failure := CopyRdpOptions(id, newId, world, base);
      } else {
        failure := None;
      }
    }

    method CopyRdpOptions(id: Id, newId: Id, world: World, ghost base: Stores) returns (failure: Option<Step>)
      requires id in stores.rows && stores.rows[id].protocol == "rdp"
      requires newId !in base.rows && AgreesElsewhere(base, stores, newId)
      requires stores.secrets == base.secrets && stores.drives == base.drives
      modifies this
      ensures failure == OptionFailure(old(stores), id, world)
      ensures failure.None? ==> stores == WithOptions(old(stores), id, newId) && AgreesElsewhere(base, stores, newId)
      ensures failure.Some? ==> stores == Erased(base, newId, ErasureAfter(failure.value))
    {
      if !world.works(LoadOptions) {
        RemoveCopy(newId, false, false, base);
        return Some(LoadOptions);
      }
      if StateKey(Rdp, id) in stores.named {
        failure := CopyPresentOptions(id, newId, world, base);
      } else {
        failure := None;
      }
    }

    method CopyPresentOptions(id: Id, newId: Id, world: World, ghost base: Stores) returns (failure: Option<Step>)
      requires HasOptions(stores, id) && newId !in base.rows && AgreesElsewhere(base, stores, newId)
      requires stores.secrets == base.secrets && stores.drives == base.drives && world.works(LoadOptions)
      modifies this
      ensures failure == OptionFailure(old(stores), id, world)
      ensures failure.None? ==> stores == WithOptions(old(stores), id, newId) && AgreesElsewhere(base, stores, newId)
      ensures failure.Some? ==> stores == Erased(base, newId, ErasureAfter(failure.value))
    {
      var options := Options(newId, stores.named[StateKey(Rdp, id)].other);
      var done := CopyDriveFor(id, newId, world, base);
      if !done {
        return Some(CopyDrive);
      }
      failure := SaveOptionsFor(newId, options, world, base);
    }

    method CopyDriveFor(id: Id, newId: Id, world: World, ghost base: Stores) returns (done: bool)
      requires newId !in base.rows && AgreesElsewhere(base, stores, newId)
      requires stores.secrets == base.secrets && stores.drives == base.drives
      modifies this
      ensures done == world.works(CopyDrive)
      ensures done ==> stores == old(stores).(drives := Copied(old(stores).drives, id, newId))
      ensures done ==> AgreesElsewhere(base, stores, newId)
      ensures !done ==> stores == Erased(base, newId, ErasureAfter(CopyDrive))
    {
      if !world.works(CopyDrive) {
        RemoveCopy(newId, false, false, base);
        return false;
      }
      DriveAgrees(base, stores, id, newId);
      stores := stores.(drives := Copied(stores.drives, id, newId));
      return true;
    }

    /** With the drive's bookmark copied, a failure clears it as well. */
    method SaveOptionsFor(newId: Id, options: Options, world: World, ghost base: Stores)
      returns (failure: Option<Step>)
      requires newId !in base.rows && AgreesElsewhere(base, stores, newId) && stores.secrets == base.secrets
      modifies this
      ensures failure == if !world.works(EncodeOptions) then Some(EncodeOptions)
                         else if !world.works(SaveOptions) then Some(SaveOptions) else None
      ensures failure.None? ==> stores == old(stores).(named := old(stores).named[StateKey(Rdp, newId) := options])
      ensures failure.None? ==> AgreesElsewhere(base, stores, newId)
      ensures failure.Some? ==> stores == Erased(base, newId, ErasureAfter(failure.value))
    {
      if !world.works(EncodeOptions) || !world.works(SaveOptions) {
        RemoveCopy(newId, true, false, base);
        return Some(if world.works(EncodeOptions) then SaveOptions else EncodeOptions);
      }
      OptionsAgree(base, stores, newId, options);
      stores := stores.(named := stores.named[StateKey(Rdp, newId) := options]);
      return None;
    }

    method CopySecret(id: Id, newId: Id, world: World, ghost base: Stores) returns (failure: Option<Step>)
      requires newId in stores.rows && newId !in base.rows && AgreesElsewhere(base, stores, newId)
      requires stores.secrets == base.secrets
      modifies this
      ensures failure == SecretFailure(old(stores), id, world)
      ensures failure.None? ==> stores == WithSecret(old(stores), id, newId)
      ensures failure.Some? ==> stores == Erased(base, newId, ErasureAfter(failure.value))
    {
      if !world.works(LoadSecret) {
        RemoveCopy(newId, true, false, base);
        return Some(LoadSecret);
      }
      if id !in stores.secrets {
        return None;
      }
      var secret := stores.secrets[id];
      if !world.works(SaveSecret) {
        RemoveCopy(newId, true, false, base);
        return Some(SaveSecret);
      }
      SecretAgrees(base, stores, newId, secret);
      stores := stores.(secrets := Put(stores.secrets, newId, Some(secret)));
      if !world.works(SetReference) {
        RestoreSecret(newId, None);
        RemoveCopy(newId, true, true, base);
        return Some(SetReference);
      }
      RowAgrees(base, stores, newId, stores.rows[newId].(reference := Some(Reference(newId))));
      stores := stores.(rows := stores.rows[newId := stores.rows[newId].(reference := Some(Reference(newId)))]);
      if !world.works(ReadBackReference) {
        RestoreSecret(newId, None);
        RemoveCopy(newId, true, true, base);
        return Some(ReadBackReference);
      }
      return None;
    }

    /** The clearing up: bookmarks, the drive's once it may have been copied, and the row. */
    method RemoveCopy(id: Id, drive: bool, ghost secret: bool, ghost base: Stores)
      requires AgreesElsewhere(base, stores, id) && id !in base.rows
      requires stores.secrets == if secret then base.secrets - {id} else base.secrets
      requires !drive ==> stores.drives == base.drives
      modifies this
      ensures stores == Erased(base, id, Erasure(true, true, drive, secret))
    {
      RemovingErases(base, stores, id, drive, secret);
      RestoreKey(id, None);
      RestoreCertificate(id, None);
      if drive {
        RestoreDrive(id, None);
      }
      stores := RemoveInserted(stores, id);
    }
  }
}
