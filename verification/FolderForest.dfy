/** Soft-deletable folders, the recursive subtree queries on them, and the connections filed
    in them.  Each command is one atomic change of the tables. */
module FolderForest {
  import opened Base

  type Id = string

  datatype Folder = Folder(name: string, parent: Option<Id>, live: bool)

  datatype Connection = Connection(folder: Option<Id>, live: bool)

  type Folders = map<Id, Folder>

  predicate Live(rows: Folders, id: Id) {
    id in rows && rows[id].live
  }

  /** A live row with a parent. */
  predicate HasParent(rows: Folders, x: Id, p: Id) {
    Live(rows, x) && rows[x].parent == Some(p)
  }

  /** `n` live parent links lead from `x` up to `a`. */
  predicate Climbs(rows: Folders, x: Id, a: Id, n: nat)
    decreases n
  {
    if n == 0 then x == a
    else Live(rows, x) && rows[x].parent.Some? && Climbs(rows, rows[x].parent.value, a, n - 1)
  }

  /** What the recursive query `descendants` of `a` selects. */
  ghost predicate IsBelow(rows: Folders, x: Id, a: Id) {
    exists n: nat :: n >= 1 && Climbs(rows, x, a, n)
  }

  /** What the recursive query `subtree` of `a` selects. */
  ghost predicate InSubtree(rows: Folders, x: Id, a: Id) {
    Live(rows, x) && (x == a || IsBelow(rows, x, a))
  }

  /** A rank that falls along every parent link, below a common height; and every live folder's
      parent is live. */
  ghost predicate Ranked(rows: Folders, rank: map<Id, nat>, height: nat) {
    forall x :: Live(rows, x) ==>
      && x in rank && rank[x] < height
      && (rows[x].parent.Some? ==>
            var p := rows[x].parent.value;
            Live(rows, p) && p in rank && rank[p] < rank[x])
  }

  ghost predicate Forest(rows: Folders) {
    exists rank: map<Id, nat>, height: nat :: Ranked(rows, rank, height)
  }

  // ---- the queries ------------------------------------------------------------

  function Children(rows: Folders, parents: set<Id>): set<Id> {
    set x | x in rows && rows[x].live && rows[x].parent.Some? && rows[x].parent.value in parents
  }

  /** Rank grows with the distance climbed, so only forests of bounded depth have deep rows. */
  lemma {:induction false} ClimbsNeedRank(rows: Folders, rank: map<Id, nat>, height: nat, x: Id, a: Id, n: nat)
    requires Ranked(rows, rank, height) && n >= 1 && Climbs(rows, x, a, n)
    ensures Live(rows, x) && Live(rows, a) && rank[a] + n <= rank[x] < height
    decreases n
  {
    if n > 1 {
      ClimbsNeedRank(rows, rank, height, rows[x].parent.value, a, n - 1);
    }
  }

  /** The recursive query, level by level.  On a forest it ends, and it selects exactly the
      rows from which live parent links lead up to `id`. */
  method Descendants(rows: Folders, id: Id) returns (all: set<Id>)
    requires Forest(rows)
    ensures forall x :: x in all <==> IsBelow(rows, x, id)
  {
    ghost var rank: map<Id, nat>, height: nat :| Ranked(rows, rank, height);
    all := {};
    var level := Children(rows, {id});
    ghost var n := 1;
    while level != {}
      invariant n >= 1
      invariant forall x :: x in level <==> Climbs(rows, x, id, n)
      invariant forall x :: x in all <==> exists k :: 1 <= k < n && Climbs(rows, x, id, k)
      decreases height - n
    {
      ghost var deep :| deep in level;
      ClimbsNeedRank(rows, rank, height, deep, id, n);
      all := all + level;
      level := Children(rows, level);
      n := n + 1;
    }
    forall x | IsBelow(rows, x, id) ensures x in all {
      var k: nat :| k >= 1 && Climbs(rows, x, id, k);
      if k >= n { NoGaps(rows, x, id, k, n); }
    }
  }

  /** If nothing climbs `n` links then nothing climbs more. */
  lemma {:induction false} NoGaps(rows: Folders, x: Id, a: Id, k: nat, n: nat)
    requires Climbs(rows, x, a, k) && 1 <= n <= k
    ensures exists y :: Climbs(rows, y, a, n)
    decreases k
  {
    if n < k {
      NoGaps(rows, rows[x].parent.value, a, k - 1, n);
    }
  }

  // ---- the commands, as changes of the tables ---------------------------------

  ghost predicate SaveAllowed(rows: Folders, id: Id, parent: Option<Id>) {
    parent.Some? ==> parent.value != id && Live(rows, parent.value) && !IsBelow(rows, parent.value, id)
  }

  /** A parent that is not there is reported as such; every other refusal is a validation error. */
  function SaveError(rows: Folders, id: Id, parent: Option<Id>, valid: bool): Error {
    if valid && parent.Some? && parent.value != id && !Live(rows, parent.value) then NotFound else Validation
  }

  function Saved(rows: Folders, id: Id, name: string, parent: Option<Id>): Folders {
    rows[id := Folder(name, parent, true)]
  }

  /** The two updates of a deletion, on the rows a query selected. */
  function MarkDeleted(rows: Folders, selected: set<Id>): Folders {
    map x | x in rows :: if x in selected then rows[x].(live := false) else rows[x]
  }

  function ClearFolder(connections: map<Id, Connection>, selected: set<Id>): map<Id, Connection> {
    map c | c in connections ::
      if connections[c].folder.Some? && connections[c].folder.value in selected
      then connections[c].(folder := None) else connections[c]
  }

  /** What a deletion is to do: exactly the live subtree goes, and its connections are detached. */
  ghost function Deleted(rows: Folders, id: Id): Folders {
    map x | x in rows :: if InSubtree(rows, x, id) then rows[x].(live := false) else rows[x]
  }

  ghost function Detached(connections: map<Id, Connection>, rows: Folders, id: Id): map<Id, Connection> {
    map c | c in connections ::
      if connections[c].folder.Some? && InSubtree(rows, connections[c].folder.value, id)
      then connections[c].(folder := None) else connections[c]
  }

  class Database {
    var folders: Folders
    var connections: map<Id, Connection>

    /** `valid`: the id and the name pass their length checks. */
    method SaveFolder(id: Id, name: string, parent: Option<Id>, valid: bool) returns (answer: Result<()>)
      requires Forest(folders)
      modifies this`folders
      ensures Forest(folders)
      ensures answer.Ok? <==> valid && SaveAllowed(old(folders), id, parent)
      ensures answer.Err? ==> answer.error == SaveError(old(folders), id, parent, valid)
      ensures folders == if answer.Ok? then old(folders)[id := Folder(name, parent, true)] else old(folders)
    {
      if !valid {
        return Err(Validation);
      }
      if parent.Some? {
        if parent.value == id {
          return Err(Validation);
        }
        if parent.value !in folders || !folders[parent.value].live {
          return Err(NotFound);
        }
        var below := Descendants(folders, id);
        if parent.value in below {
          return Err(Validation);
        }
      }
      SavingKeepsTheForest(folders, id, name, parent);
      folders := folders[id := Folder(name, parent, true)];
      return Ok(());
    }

    method DeleteFolder(id: Id) returns (answer: Result<()>)
      requires Forest(folders)
      modifies this
      ensures Forest(folders)
      ensures answer == if Live(old(folders), id) then Ok(()) else Err(NotFound)
      ensures answer.Ok? ==> folders == Deleted(old(folders), id)
      ensures answer.Ok? ==> connections == Detached(old(connections), old(folders), id)
      ensures answer.Ok? ==> folders.Keys == old(folders).Keys && connections.Keys == old(connections).Keys
      ensures answer.Ok? ==> forall x :: x in folders ==>
                folders[x] == Folder(old(folders)[x].name, old(folders)[x].parent,
                                     old(folders)[x].live && !InSubtree(old(folders), x, id))
      ensures answer.Ok? ==> forall c :: c in connections ==>
                var was := old(connections)[c];
                connections[c] == if was.folder.Some? && InSubtree(old(folders), was.folder.value, id)
                                  then Connection(None, was.live) else was
      ensures answer.Err? ==> folders == old(folders) && connections == old(connections)
    {
      if id !in folders || !folders[id].live {
        return Err(NotFound);
      }
      var below := Descendants(folders, id);
      BelowIsLive(folders, id);
      SubtreeSelected(folders, connections, id, below + {id});
      DeletingKeepsTheForest(folders, id);
      connections := ClearFolder(connections, below + {id});
      folders := MarkDeleted(folders, below + {id});
      return Ok(());
    }

    method MoveConnection(id: Id, folder: Option<Id>) returns (answer: Result<()>)
      modifies this`connections
      ensures answer.Ok? <==>
                (folder.Some? ==> Live(folders, folder.value)) && id in old(connections) && old(connections)[id].live
      ensures answer.Err? ==> answer.error == NotFound && connections == old(connections)
      ensures answer.Ok? ==> connections == old(connections)[id := Connection(folder, true)]
    {
      if folder.Some? && (folder.value !in folders || !folders[folder.value].live) {
        return Err(NotFound);
      }
      if id !in connections || !connections[id].live {
        return Err(NotFound);
      }
      connections := connections[id := connections[id].(folder := folder)];
      return Ok(());
    }
  }

  // ---- the commands keep the forest -------------------------------------------

  lemma SubtreeSelected(rows: Folders, connections: map<Id, Connection>, id: Id, selected: set<Id>)
    requires forall x :: x in selected <==> InSubtree(rows, x, id)
    ensures MarkDeleted(rows, selected) == Deleted(rows, id)
    ensures ClearFolder(connections, selected) == Detached(connections, rows, id)
  {
  }

  lemma BelowIsLive(rows: Folders, id: Id)
    ensures forall x :: IsBelow(rows, x, id) ==> Live(rows, x)
  {
  }

  /** Being below `a` is being its child or being below it through one's own parent. */
  lemma BelowThroughParent(rows: Folders, x: Id, p: Id, a: Id)
    requires HasParent(rows, x, p)
    ensures IsBelow(rows, x, a) <==> p == a || IsBelow(rows, p, a)
  {
    if IsBelow(rows, x, a) {
      var n: nat :| n >= 1 && Climbs(rows, x, a, n);
      assert Climbs(rows, p, a, n - 1);
    } else if p == a {
      assert Climbs(rows, p, a, 0);
      assert Climbs(rows, x, a, 1);
    } else if IsBelow(rows, p, a) {
      var n: nat :| n >= 1 && Climbs(rows, p, a, n);
      assert Climbs(rows, x, a, n + 1);
    }
  }

  /** A new parent outside the folder's own subtree never closes a cycle: lift the whole
      subtree above the parent. */
  lemma SavingKeepsTheForest(rows: Folders, id: Id, name: string, parent: Option<Id>)
    requires Forest(rows) && SaveAllowed(rows, id, parent)
    ensures Forest(Saved(rows, id, name, parent))
  {
    var rank: map<Id, nat>, height: nat :| Ranked(rows, rank, height);
    var lift := if parent.Some? then rank[parent.value] + 1 else 0;
    var rows' := Saved(rows, id, name, parent);
    var rank' := map x | x in rows' ::
      (if Live(rows, x) then rank[x] else 0) + (if x == id || IsBelow(rows, x, id) then lift else 0);
    var height' := height + lift + 1;
    forall x | Live(rows', x)
      ensures x in rank' && rank'[x] < height'
      ensures rows'[x].parent.Some? ==>
                var p := rows'[x].parent.value;
                Live(rows', p) && p in rank' && rank'[p] < rank'[x]
    {
      if x != id && rows'[x].parent.Some? {
        BelowThroughParent(rows, x, rows[x].parent.value, id);
      }
    }
    assert Ranked(rows', rank', height');
  }

  lemma {:induction false} ClimbSurvivesSaving(rows: Folders, rank: map<Id, nat>, height: nat,
                                               id: Id, name: string, parent: Option<Id>, x: Id, n: nat)
    requires Ranked(rows, rank, height) && Climbs(rows, x, id, n)
    ensures Climbs(Saved(rows, id, name, parent), x, id, n)
    decreases n
  {
    if n > 0 {
      ClimbsNeedRank(rows, rank, height, x, id, n);
      ClimbSurvivesSaving(rows, rank, height, id, name, parent, rows[x].parent.value, n - 1);
    }
  }

  lemma ParentBelowClosesACycle(rows: Folders, id: Id, name: string, p: Id)
    requires Forest(rows) && IsBelow(rows, p, id)
    ensures IsBelow(Saved(rows, id, name, Some(p)), id, id)
  {
    var rank: map<Id, nat>, height: nat :| Ranked(rows, rank, height);
    var n: nat :| n >= 1 && Climbs(rows, p, id, n);
    ClimbSurvivesSaving(rows, rank, height, id, name, Some(p), p, n);
    assert Climbs(Saved(rows, id, name, Some(p)), id, id, n + 1);
  }

  lemma NothingIsBelowItself(rows: Folders, x: Id)
    requires Forest(rows)
    ensures !IsBelow(rows, x, x)
  {
    var rank: map<Id, nat>, height: nat :| Ranked(rows, rank, height);
    forall n: nat | n >= 1 ensures !Climbs(rows, x, x, n) {
      if Climbs(rows, x, x, n) { ClimbsNeedRank(rows, rank, height, x, x, n); }
    }
  }

  lemma ParentsAreLive(rows: Folders, x: Id, p: Id)
    requires Forest(rows) && HasParent(rows, x, p)
    ensures Live(rows, p) && p != x
  {
  }

  /** The checks of a save are exact: they refuse a parent if and only if accepting it would
      leave a live folder without a live parent or close a cycle. */
  lemma SaveRefusesExactlyWhatBreaksTheForest(rows: Folders, id: Id, name: string, parent: Option<Id>)
    requires Forest(rows)
    ensures SaveAllowed(rows, id, parent) <==> Forest(Saved(rows, id, name, parent))
  {
    if SaveAllowed(rows, id, parent) {
      SavingKeepsTheForest(rows, id, name, parent);
    } else if Forest(Saved(rows, id, name, parent)) {
      ParentsAreLive(Saved(rows, id, name, parent), id, parent.value);
      ParentBelowClosesACycle(rows, id, name, parent.value);
      NothingIsBelowItself(Saved(rows, id, name, parent), id);
    }
  }

  lemma DeletingKeepsTheForest(rows: Folders, id: Id)
    requires Forest(rows)
    ensures Forest(Deleted(rows, id))
  {
    var rank: map<Id, nat>, height: nat :| Ranked(rows, rank, height);
    var rows' := Deleted(rows, id);
    forall x | Live(rows', x) && rows'[x].parent.Some?
      ensures Live(rows', rows'[x].parent.value)
    {
      BelowThroughParent(rows, x, rows[x].parent.value, id);
    }
    assert Ranked(rows', rank, height);
  }

  // ---- runs -------------------------------------------------------------------

  datatype Command = Save(id: Id, name: string, parent: Option<Id>, valid: bool) | Delete(id: Id)

  ghost function Apply(rows: Folders, c: Command): Folders {
    match c
    case Save(id, name, parent, valid) =>
      if valid && SaveAllowed(rows, id, parent) then Saved(rows, id, name, parent) else rows
    case Delete(id) => if Live(rows, id) then Deleted(rows, id) else rows
  }

  ghost function Run(commands: seq<Command>): Folders {
    if commands == [] then map[] else Apply(Run(commands[..|commands| - 1]), commands[|commands| - 1])
  }

  lemma {:induction false} RunsKeepTheForest(commands: seq<Command>)
    ensures Forest(Run(commands))
  {
    if commands == [] {
      assert Ranked(map[], map[], 0);
    } else {
      var before := Run(commands[..|commands| - 1]);
      RunsKeepTheForest(commands[..|commands| - 1]);
      match commands[|commands| - 1]
      case Save(id, name, parent, valid) =>
        if valid && SaveAllowed(before, id, parent) { SavingKeepsTheForest(before, id, name, parent); }
      case Delete(id) => DeletingKeepsTheForest(before, id);
    }
  }

  /** After any series of saves, moves under other parents, deletes and saves of deleted folders:
      every live folder's parent is live, no folder lies below itself, and a row is found at one
      depth only, so the recursive queries end and select each row once. */
  lemma LiveFoldersAreAForest(commands: seq<Command>, x: Id)
    requires Live(Run(commands), x)
    ensures var rows := Run(commands);
            && (rows[x].parent.Some? ==> Live(rows, rows[x].parent.value))
            && !IsBelow(rows, x, x)
            && forall a, n: nat, m: nat :: Climbs(rows, x, a, n) && Climbs(rows, x, a, m) ==> n == m
  {
    RunsKeepTheForest(commands);
    var rows := Run(commands);
    var rank: map<Id, nat>, height: nat :| Ranked(rows, rank, height);
    NothingIsBelowItself(rows, x);
    forall a, n: nat, m: nat | Climbs(rows, x, a, n) && Climbs(rows, x, a, m) ensures n == m {
      OneDepth(rows, rank, height, x, a, n, m);
    }
  }

  lemma {:induction false} OneDepth(rows: Folders, rank: map<Id, nat>, height: nat, x: Id, a: Id, n: nat, m: nat)
    requires Ranked(rows, rank, height) && Climbs(rows, x, a, n) && Climbs(rows, x, a, m)
    ensures n == m
    decreases n
  {
    if n >= 1 && m >= 1 {
      OneDepth(rows, rank, height, rows[x].parent.value, a, n - 1, m - 1);
    } else if n >= 1 {
      ClimbsNeedRank(rows, rank, height, x, a, n);
    } else if m >= 1 {
      ClimbsNeedRank(rows, rank, height, x, a, m);
    }
  }
}
