/** Importing a backup or a synchronisation file: secrets first, with an undo log, then all rows
    in one transaction. */
module BackupImport {
  import opened Base
  import opened ConnectionStore

  /** What opening the file gave: a plain or a decrypted list of connections, or an error. */
  datatype File = Damaged(error: Error) | Opened(encrypted: bool, entries: seq<Input>)

  /** The undo log: identifiers and what was stored for them before. */
  type Log = seq<(Id, Option<string>)>

  /** The surroundings of one import: what the database refers to, which inputs pass validation,
      the identifiers made for conflicting entries, and which steps fail. */
  datatype World = World(folders: set<Id>, proxies: set<Id>, valid: Input -> bool, made: seq<Id>, suffix: string,
                         loadFails: set<nat>, saveFails: set<nat>, commitFails: bool)

  // ---- the inputs -------------------------------------------------------------

  function KeepIf(reference: Option<Id>, present: set<Id>): Option<Id> {
    if reference.Some? && reference.value in present then reference else None
  }

  function Prepare(entry: Input, id: Id, name: string, world: World): Input {
    entry.(id := id, name := name, folder := KeepIf(entry.folder, world.folders),
           proxy := KeepIf(entry.proxy, world.proxies))
  }

  /** Entry `i` as it will be imported: a conflicting one under its new identifier. */
  function InputAt(entries: seq<Input>, existing: set<Id>, world: World, i: nat): Input
    requires i < |entries| == |world.made|
  {
    if entries[i].id in existing then Prepare(entries[i], world.made[i], entries[i].name + world.suffix, world)
    else Prepare(entries[i], entries[i].id, entries[i].name, world)
  }

  function Inputs(entries: seq<Input>, existing: set<Id>, world: World): seq<Input>
    requires |entries| == |world.made|
  {
    seq(|entries|, i requires 0 <= i < |entries| => InputAt(entries, existing, world, i))
  }

  predicate StoresSecret(input: Input) {
    input.protocol == "ssh" && !UsesAgent(input.protocol, input.auth) && input.credential.Some?
  }

  function ReferenceFor(input: Input): Option<string> {
    if StoresSecret(input) then Some(Reference(input.id)) else None
  }

  // ---- what the steps come to -------------------------------------------------

  function SecretsAfter(secrets: Values, inputs: seq<Input>): Values {
    if inputs == [] then secrets else
      var last := inputs[|inputs| - 1];
      var before := SecretsAfter(secrets, inputs[..|inputs| - 1]);
      if StoresSecret(last) then Put(before, last.id, last.credential) else before
  }

  function RowsAfter(rows: map<Id, Row>, inputs: seq<Input>): map<Id, Row> {
    if inputs == [] then rows else
      var last := inputs[|inputs| - 1];
      Upsert(RowsAfter(rows, inputs[..|inputs| - 1]), last, ReferenceFor(last))
  }

  /** Undoing the log from its end. */
  function Undo(secrets: Values, log: Log): Values
    decreases |log|
  {
    if log == [] then secrets else
      var (id, previous) := log[|log| - 1];
      Undo(Put(secrets, id, previous), log[..|log| - 1])
  }

  /** The step at which storing the secrets fails. */
  predicate SecretStepFails(inputs: seq<Input>, world: World, i: nat)
    requires i < |inputs|
  {
    StoresSecret(inputs[i]) && (i in world.loadFails || i in world.saveFails)
  }

  ghost predicate Accepted(file: File, inputs: seq<Input>, world: World) {
    && file.Opened?
    && (!file.encrypted ==> forall i :: 0 <= i < |file.entries| ==> file.entries[i].credential.None?)
    && (forall i :: 0 <= i < |inputs| ==> world.valid(inputs[i]))
  }

  ghost predicate AllStepsSucceed(inputs: seq<Input>, world: World) {
    && (forall i :: 0 <= i < |inputs| ==> !SecretStepFails(inputs, world, i))
    && !world.commitFails
  }

  // ---- the import -------------------------------------------------------------

  class Importer {
    var secrets: Values
    var rows: map<Id, Row>

    function Existing(preserveConflicts: bool): set<Id>
      reads this
    {
      if preserveConflicts then LiveIds(rows) else {}
    }

    /** All or nothing: an error of any kind, at any step, leaves both stores as they were. */
    method ImportFile(file: File, preserveConflicts: bool, world: World) returns (answer: Result<nat>)
      requires file.Opened? ==> |file.entries| == |world.made|
      modifies this
      ensures file.Opened? ==>
                var inputs := Inputs(file.entries, old(Existing(preserveConflicts)), world);
                && (answer.Ok? <==> Accepted(file, inputs, world) && AllStepsSucceed(inputs, world))
                && (answer.Ok? ==> && answer.value == |inputs|
                                   && secrets == SecretsAfter(old(secrets), inputs)
                                   && rows == RowsAfter(old(rows), inputs))
      ensures file.Damaged? ==> answer == Err(file.error)
      ensures answer.Ok? && !file.encrypted ==>
                forall i :: 0 <= i < |file.entries| ==> file.entries[i].credential == None
      ensures answer.Ok? ==> !world.commitFails
      ensures answer.Err? ==> secrets == old(secrets) && rows == old(rows)
    {
      if file.Damaged? {
        return Err(file.error);
      }
      if !file.encrypted && exists i | 0 <= i < |file.entries| :: file.entries[i].credential.Some? {
        return Err(Validation);
      }
      var prepared := PrepareInputs(file.entries, Existing(preserveConflicts), world);
      if prepared.None? {
        return Err(Validation);
      }
      var done := StoreInputs(prepared.value, world);
      return if done then Ok(|prepared.value|) else Err(Storage);
    }

    /** Secrets one by one, each noted in the undo log, then the rows. */
    method StoreInputs(inputs: seq<Input>, world: World) returns (done: bool)
      modifies this
      ensures done <==> AllStepsSucceed(inputs, world)
      ensures done ==> secrets == SecretsAfter(old(secrets), inputs) && rows == RowsAfter(old(rows), inputs)
      ensures !done ==> secrets == old(secrets) && rows == old(rows)
    {
      var changed: Log := [];
      var i := 0;
      while i < |inputs|
        invariant 0 <= i <= |inputs|
        invariant secrets == SecretsAfter(old(secrets), inputs[..i]) && rows == old(rows)
        invariant Undo(secrets, changed) == old(secrets)
        invariant forall j :: 0 <= j < i ==> !SecretStepFails(inputs, world, j)
      {
        assert inputs[..i + 1][..i] == inputs[..i];
        if StoresSecret(inputs[i]) {
          if i in world.loadFails {
            assert SecretStepFails(inputs, world, i);
            RollbackCredentials(changed);
            return false;
          }
          var previous := Get(secrets, inputs[i].id);
          if i in world.saveFails {
            assert SecretStepFails(inputs, world, i);
            RollbackCredentials(changed);
            return false;
          }
          UndoLast(secrets, changed, inputs[i].id, inputs[i].credential);
          secrets := Put(secrets, inputs[i].id, inputs[i].credential);
          changed := changed + [(inputs[i].id, previous)];
        }
        i := i + 1;
      }
      assert inputs[..i] == inputs;
      var imported := ImportConnections(inputs, world.commitFails);
      if !imported {
        RollbackCredentials(changed);
        return false;
      }
      return true;
    }

    /** The undo log is worked off from its end. */
    method RollbackCredentials(changed: Log)
      modifies this`secrets
      ensures secrets == Undo(old(secrets), changed)
    {
      var i := |changed|;
      assert changed[..i] == changed;
      while i > 0
        invariant 0 <= i <= |changed|
        invariant Undo(secrets, changed[..i]) == Undo(old(secrets), changed)
      {
        i := i - 1;
        assert changed[..i + 1][..i] == changed[..i];
        secrets := Put(secrets, changed[i].0, changed[i].1);
      }
    }

    /** One transaction: every row, or none when any statement or the commit fails. */
    method ImportConnections(inputs: seq<Input>, fails: bool) returns (done: bool)
      modifies this`rows
      ensures done == !fails
      ensures rows == if done then RowsAfter(old(rows), inputs) else old(rows)
    {
      var table := rows;
      for i := 0 to |inputs|
        invariant table == RowsAfter(rows, inputs[..i]) && rows == old(rows)
      {
        assert inputs[..i + 1][..i] == inputs[..i];
        table := Upsert(table, inputs[i], ReferenceFor(inputs[i]));
      }
      assert inputs[..|inputs|] == inputs;
      if fails {
        return false;
      }
      rows := table;
      return true;
    }
  }

  /** Gives conflicting entries their new identifiers, drops references to what is not there, and
      validates; nothing is stored yet. */
  method PrepareInputs(entries: seq<Input>, existing: set<Id>, world: World) returns (prepared: Option<seq<Input>>)
    requires |entries| == |world.made|
    ensures prepared.Some? <==> forall i :: 0 <= i < |entries| ==> world.valid(Inputs(entries, existing, world)[i])
    ensures prepared.Some? ==> prepared.value == Inputs(entries, existing, world)
  {
    var inputs := [];
    for i := 0 to |entries|
      invariant inputs == Inputs(entries, existing, world)[..i]
      invariant forall j :: 0 <= j < i ==> world.valid(Inputs(entries, existing, world)[j])
    {
      var input := InputAt(entries, existing, world, i);
      assert input == Inputs(entries, existing, world)[i];
      if !world.valid(input) {
        return None;
      }
      inputs := inputs + [input];
    }
    return Some(inputs);
  }

  // ---- why undoing works ------------------------------------------------------

  /** Undoing in reverse takes back the last change first, so a repeated identifier gets back the
      value it had before its first change. */
  lemma UndoLast(secrets: Values, log: Log, id: Id, value: Option<string>)
    ensures Undo(Put(secrets, id, value), log + [(id, Get(secrets, id))]) == Undo(secrets, log)
  {
    PutBack(secrets, id, value);
    assert (log + [(id, Get(secrets, id))])[..|log|] == log;
  }

  /** Undoing from the front instead would leave the value of the first of two changes. */
  lemma UndoingForwardsLosesTheValue(id: Id, first: string, second: string)
    requires first != second
    ensures var log: Log := [(id, None), (id, Some(first))];
            && Undo(Put(Put(map[], id, Some(first)), id, Some(second)), log) == map[]
            && Put(Put(map[id := second], log[0].0, log[0].1), log[1].0, log[1].1) == map[id := first]
  {
    var log: Log := [(id, None), (id, Some(first))];
    var secrets := Put(Put(map[], id, Some(first)), id, Some(second));
    assert log[..1] == [(id, None)];
    assert Undo(secrets, log) == Undo(Put(secrets, id, Some(first)), log[..1]);
    assert log[..1][..0] == [];
  }

  // ---- what an import leaves alone --------------------------------------------

  lemma {:induction false} OthersKeepTheirs(secrets: Values, rows: map<Id, Row>, inputs: seq<Input>, id: Id)
    requires forall i :: 0 <= i < |inputs| ==> inputs[i].id != id
    ensures Get(SecretsAfter(secrets, inputs), id) == Get(secrets, id)
    ensures id in RowsAfter(rows, inputs) <==> id in rows
    ensures id in rows ==> RowsAfter(rows, inputs)[id] == rows[id]
  {
    if inputs != [] {
      OthersKeepTheirs(secrets, rows, inputs[..|inputs| - 1], id);
    }
  }

  /** Synchronising never touches a connection that is live here, nor its secret, as long as the
      identifiers made for conflicting entries are new. */
  lemma SyncKeepsLiveConnections(secrets: Values, rows: map<Id, Row>, entries: seq<Input>, world: World, id: Id)
    requires |entries| == |world.made|
    requires forall i :: 0 <= i < |world.made| ==> world.made[i] !in rows
    requires LiveRow(rows, id)
    ensures var inputs := Inputs(entries, LiveIds(rows), world);
            && Get(SecretsAfter(secrets, inputs), id) == Get(secrets, id)
            && id in RowsAfter(rows, inputs) && RowsAfter(rows, inputs)[id] == rows[id]
  {
    var inputs := Inputs(entries, LiveIds(rows), world);
    forall i | 0 <= i < |inputs| ensures inputs[i].id != id {
      assert world.made[i] !in rows;
    }
    OthersKeepTheirs(secrets, rows, inputs, id);
  }

  /** An import stores a secret for every reference it records. */
  lemma {:induction false} ImportKeepsSecretsBehindReferences(secrets: Values, rows: map<Id, Row>, inputs: seq<Input>)
    requires SecretsBehindReferences(rows, secrets)
    ensures SecretsBehindReferences(RowsAfter(rows, inputs), SecretsAfter(secrets, inputs))
  {
    if inputs != [] {
      ImportKeepsSecretsBehindReferences(secrets, rows, inputs[..|inputs| - 1]);
    }
  }

  /** What an imported row refers to is there. */
  lemma {:induction false} ImportedReferencesExist(rows: map<Id, Row>, entries: seq<Input>, existing: set<Id>,
                                                   world: World, n: nat, id: Id)
    requires n <= |entries| == |world.made|
    requires id in RowsAfter(rows, Inputs(entries, existing, world)[..n])
    ensures var row := RowsAfter(rows, Inputs(entries, existing, world)[..n])[id];
            || (id in rows && row == rows[id])
            || (row.live && (row.folder.Some? ==> row.folder.value in world.folders)
                && (row.proxy.Some? ==> row.proxy.value in world.proxies))
  {
    if n > 0 {
      var inputs := Inputs(entries, existing, world);
      assert inputs[..n][..n - 1] == inputs[..n - 1];
      if inputs[n - 1].id != id {
        ImportedReferencesExist(rows, entries, existing, world, n - 1, id);
      }
    }
  }

  // ---- what an import brings in -----------------------------------------------

  /** An input says what its entry says, except that a conflicting one has its new identifier and name,
      and that a folder or proxy that is not there is dropped. */
  lemma InputsSayWhatEntriesSay(entries: seq<Input>, existing: set<Id>, world: World, i: nat)
    requires i < |entries| == |world.made|
    ensures var input, entry := Inputs(entries, existing, world)[i], entries[i];
            && input.id == (if entry.id in existing then world.made[i] else entry.id)
            && input.name == (if entry.id in existing then entry.name + world.suffix else entry.name)
            && input.folder == (if entry.folder.Some? && entry.folder.value in world.folders
                                then entry.folder else None)
            && input.proxy == (if entry.proxy.Some? && entry.proxy.value in world.proxies then entry.proxy else None)
            && input.protocol == entry.protocol && input.auth == entry.auth && input.credential == entry.credential
            && input.key == entry.key && input.certificate == entry.certificate && input.other == entry.other
  {
  }

  predicate LastOfItsId(inputs: seq<Input>, i: nat) {
    i < |inputs| && forall j :: i < j < |inputs| ==> inputs[j].id != inputs[i].id
  }

  /** Of the entries with one identifier the last one's fields are stored; an SSH entry that does not use
      an agent and gives a secret leaves that secret, with a reference to it. */
  lemma {:induction false} TheLastEntryStays(secrets: Values, rows: map<Id, Row>, inputs: seq<Input>, i: nat)
    requires LastOfItsId(inputs, i)
    ensures inputs[i].id in RowsAfter(rows, inputs)
    ensures var row, input := RowsAfter(rows, inputs)[inputs[i].id], inputs[i];
            && row.live && row.name == input.name && row.folder == input.folder && row.proxy == input.proxy
            && row.protocol == input.protocol && row.auth == input.auth && row.key == input.key
            && row.certificate == input.certificate && row.other == input.other
            && (input.protocol == "ssh" && input.auth !in {"sshAgent", "fido2Agent"} && input.credential.Some? ==>
                  Get(SecretsAfter(secrets, inputs), input.id) == input.credential
                  && row.reference == Some(Reference(input.id)))
  {
    var last := |inputs| - 1;
    if i < last {
      var before := inputs[..last];
      assert LastOfItsId(before, i);
      assert inputs[last].id != inputs[i].id;
      TheLastEntryStays(secrets, rows, before, i);
    }
  }

  /** Other entries bring no secret, and one without a secret leaves the reference of a connection with
      the same kind of authentication as it was. */
  lemma OneEntryAtATime(secrets: Values, rows: map<Id, Row>, input: Input)
    requires input.protocol != "ssh" || input.auth in {"sshAgent", "fido2Agent"} || input.credential.None?
    ensures SecretsAfter(secrets, [input]) == secrets
    ensures input.id in rows && rows[input.id].auth == input.auth
            && (input.protocol != "ssh" || input.auth !in {"sshAgent", "fido2Agent"}) ==>
              RowsAfter(rows, [input])[input.id].reference == rows[input.id].reference
  {
    assert [input][..0] == [];
  }
}
