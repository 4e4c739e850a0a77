/** The stores a connection is spread over: database rows, secrets in the system's credential
    store, file-access bookmarks, and named workspace state.  Every stored value is put and
    taken back one identifier at a time. */
module ConnectionStore {
  import opened Base

  type Id = string

  /** `reference` names the stored secret; `other` stands for the fields no command looks at. */
  datatype Row = Row(name: string, folder: Option<Id>, proxy: Option<Id>, protocol: string, auth: string,
                     reference: Option<string>, key: Option<string>, certificate: Option<string>,
                     other: string, live: bool)

  datatype Input = Input(id: Id, name: string, folder: Option<Id>, proxy: Option<Id>, protocol: string, auth: string,
                         key: Option<string>, certificate: Option<string>, other: string,
                         credential: Option<string>)

  datatype Kind = Protocol | Rdp | Serial

  /** The key of a piece of workspace state that belongs to a connection. */
  datatype StateKey = StateKey(kind: Kind, id: Id)

  /** Saved options of a remote-desktop connection carry the identifier they belong to. */
  datatype Options = Options(connection: Id, other: string)

  type Values = map<Id, string>

  datatype Stores = Stores(secrets: Values, keys: Values, certificates: Values, drives: Values,
                           rows: map<Id, Row>, named: map<StateKey, Options>,
                           jumps: map<Id, Option<Id>>, history: map<nat, Id>)

  predicate UsesAgent(protocol: string, auth: string) {
    protocol == "ssh" && (auth == "sshAgent" || auth == "fido2Agent")
  }

  /** The reference recorded for the secret of `id`. */
  function Reference(id: Id): string {
    "connection:" + id
  }

  // ---- one identifier at a time -----------------------------------------------

  function Get(m: Values, id: Id): Option<string> {
    if id in m then Some(m[id]) else None
  }

  /** Stores the value, or removes what is stored. */
  function Put(m: Values, id: Id, value: Option<string>): Values {
    if value.Some? then m[id := value.value] else m - {id}
  }

  lemma PutBack(m: Values, id: Id, value: Option<string>)
    ensures Put(Put(m, id, value), id, Get(m, id)) == m
    ensures Put(m, id, Get(m, id)) == m
  {
  }

  // ---- the rows ---------------------------------------------------------------

  /** The reference an insert-or-update leaves: none for agents, the new one when the kind of
      authentication changes, otherwise the new one if there is one and the old one if not. */
  function ReferenceAfter(rows: map<Id, Row>, input: Input, reference: Option<string>): Option<string> {
    if input.id !in rows then reference
    else if UsesAgent(input.protocol, input.auth) then None
    else if rows[input.id].auth != input.auth then reference
    else if reference.Some? then reference
    else rows[input.id].reference
  }

  function RowOf(input: Input, reference: Option<string>): Row {
    Row(input.name, input.folder, input.proxy, input.protocol, input.auth, reference, input.key,
        input.certificate, input.other, true)
  }

  function Upsert(rows: map<Id, Row>, input: Input, reference: Option<string>): map<Id, Row> {
    rows[input.id := RowOf(input, ReferenceAfter(rows, input, reference))]
  }

  predicate LiveRow(rows: map<Id, Row>, id: Id) {
    id in rows && rows[id].live
  }

  function LiveIds(rows: map<Id, Row>): set<Id> {
    set id | id in rows && rows[id].live
  }

  /** Every recorded reference has its secret behind it. */
  predicate SecretsBehindReferences(rows: map<Id, Row>, secrets: Values) {
    forall id :: id in rows && rows[id].reference.Some? ==> id in secrets
  }
}
