/**
 The snapshots of a virtual machine: looking one up by its name in the tree, and
 what backups, restores and removals do to the tree.
 */
module Snapshots {
  import opened Lists
  import opened Results

  /** A list of snapshots, each with the list of those taken on top of it. */
  datatype Forest = Nil | Cons(name: string, kids: Forest, rest: Forest)

  datatype Snapshot = Snapshot(name: string, kids: Forest)

  /** All snapshots: each before those on top of it, these before its siblings. */
  function Preorder(f: Forest): seq<Snapshot>
  {
    match f
    case Nil => []
    case Cons(name, kids, rest) => [Snapshot(name, kids)] + Preorder(kids) + Preorder(rest)
  }

  function Names(f: Forest): (r: seq<string>)
    ensures |r| == |Preorder(f)| && forall i :: 0 <= i < |r| ==> r[i] == Preorder(f)[i].name
  {
    match f
    case Nil => []
    case Cons(name, kids, rest) => [name] + Names(kids) + Names(rest)
  }

  /** `get_snapshot_by_name`; None for False. */
  function Find(f: Forest, name: string): (r: Option<Snapshot>)
    ensures r.Some? ==> r.value.name == name
    ensures r.Some? <==> name in Names(f)
  {
    match f
    case Nil => None
    case Cons(n, kids, rest) =>
      if n == name then Some(Snapshot(n, kids))
      else
        var sub := Find(kids, name);
        if sub.Some? then sub else Find(rest, name)
  }

  /** The first snapshot of the list with the name. */
  ghost predicate IsFirst(list: seq<Snapshot>, name: string, s: Snapshot)
  {
    exists i :: 0 <= i < |list| && list[i] == s && s.name == name && forall j :: 0 <= j < i ==> list[j].name != name
  }

  lemma FirstBefore(a: seq<Snapshot>, b: seq<Snapshot>, name: string, s: Snapshot)
    requires IsFirst(a, name, s)
    ensures IsFirst(a + b, name, s)
  {
    var i :| 0 <= i < |a| && a[i] == s && forall j :: 0 <= j < i ==> a[j].name != name;
    assert (a + b)[i] == s;
  }

  lemma FirstBehind(a: seq<Snapshot>, b: seq<Snapshot>, name: string, s: Snapshot)
    requires IsFirst(b, name, s) && forall x <- a :: x.name != name
    ensures IsFirst(a + b, name, s)
  {
    var i :| 0 <= i < |b| && b[i] == s && forall j :: 0 <= j < i ==> b[j].name != name;
    assert (a + b)[|a| + i] == s;
  }

  lemma NamesOfPreorder(f: Forest, name: string)
    ensures name in Names(f) <==> exists s <- Preorder(f) :: s.name == name
  {
    if name in Names(f) {
      var i :| 0 <= i < |Names(f)| && Names(f)[i] == name;
      assert Preorder(f)[i] in Preorder(f);
    }
  }

  /** The lookup returns the first match in preorder; it fails exactly when no
      snapshot has the name. */
  lemma {:induction false} FindIsFirst(f: Forest, name: string)
    requires name in Names(f)
    ensures Find(f, name).Some? && IsFirst(Preorder(f), name, Find(f, name).value)
  {
    var head := [Snapshot(f.name, f.kids)];
    NamesOfPreorder(f.kids, name);
    if f.name == name {
      assert Preorder(f)[0] == head[0];
    } else if name in Names(f.kids) {
      FindIsFirst(f.kids, name);
      FirstBehind(head, Preorder(f.kids), name, Find(f.kids, name).value);
      FirstBefore(head + Preorder(f.kids), Preorder(f.rest), name, Find(f.kids, name).value);
    } else {
      FindIsFirst(f.rest, name);
      FirstBehind(head + Preorder(f.kids), Preorder(f.rest), name, Find(f.rest, name).value);
    }
  }

  /******* What the platform does *******/

  /** Where a new snapshot goes: before this list, into the list on top of the
      first one, or further on. */
  datatype Place = Here | Up(place: Place) | On(place: Place)

  function Insert(f: Forest, place: Place, name: string): Forest
  {
    if f.Nil? || place.Here? then Cons(name, Nil, f)
    else if place.Up? then Cons(f.name, Insert(f.kids, place.place, name), f.rest)
    else Cons(f.name, f.kids, Insert(f.rest, place.place, name))
  }

  /** The snapshot found under the name goes, with all on top of it. */
  function Delete(f: Forest, name: string): Forest
  {
    match f
    case Nil => Nil
    case Cons(n, kids, rest) =>
      if n == name then rest
      else if name in Names(kids) then Cons(n, Delete(kids, name), rest)
      else Cons(n, kids, Delete(rest, name))
  }

  /******* The operations *******/

  datatype Refused = AlreadyExists | NotFound | HasSnapshotsOnTop(names: seq<string>) | TaskFailed

  function Siblings(f: Forest): seq<string>
  {
    match f
    case Nil => []
    case Cons(name, _, rest) => [name] + Siblings(rest)
  }

  /** `place` is where the platform puts the new snapshot, `done` whether the task
      it is given succeeds, during the first wait for it or later; a `retry` of a
      backup only waits. */
  datatype Operation =
    | Backup(name: string, place: Place, done: bool, retry: bool)
    | Restore(name: string, done: bool)
    | Remove(name: string, done: bool)

  /** Why the operation is refused, None if it is not. */
  function Refusal(f: Forest, op: Operation): Option<Refused>
  {
    var found := Find(f, op.name);
    match op
    case Backup(_, _, done, retry) =>
      if !retry && found.Some? then Some(AlreadyExists) else if done then None else Some(TaskFailed)
    case Restore(_, done) => if found.None? then Some(NotFound) else if done then None else Some(TaskFailed)
    case Remove(_, done) =>
      if found.None? then Some(NotFound)
      else if found.value.kids.Cons? then Some(HasSnapshotsOnTop(Siblings(found.value.kids)))
      else if done then None else Some(TaskFailed)
  }

  function Apply(f: Forest, op: Operation): Forest
  {
    if Refusal(f, op).Some? then f
    else match op
      case Backup(name, place, _, retry) => if retry then f else Insert(f, place, name)
      case Restore(_, _) => f
      case Remove(name, _) => Delete(f, name)
  }

  /******* One leaf more, one leaf less *******/

  /** The name appears at one position, the others stay in their order. */
  ghost predicate OneMore(names: seq<string>, after: seq<string>, name: string)
  {
    exists i :: 0 <= i <= |names| && after == names[..i] + [name] + names[i..]
  }

  /** The first occurrence of the name is taken out, the others stay in their order. */
  ghost predicate OneLess(names: seq<string>, after: seq<string>, name: string)
  {
    exists i :: IsCut(names, after, name, i)
  }

  predicate IsCut(names: seq<string>, after: seq<string>, name: string, i: int)
  {
    && 0 <= i < |names| && names[i] == name && after == names[..i] + names[i + 1..]
    && forall j :: 0 <= j < i ==> names[j] != name
  }

  lemma MoreBefore(a: seq<string>, a': seq<string>, b: seq<string>, name: string)
    requires OneMore(a, a', name)
    ensures OneMore(a + b, a' + b, name)
  {
    var i :| 0 <= i <= |a| && a' == a[..i] + [name] + a[i..];
    assert (a + b)[..i] == a[..i] && (a + b)[i..] == a[i..] + b;
    assert a' + b == (a + b)[..i] + [name] + (a + b)[i..];
  }

  lemma MoreBehind(a: seq<string>, b: seq<string>, b': seq<string>, name: string)
    requires OneMore(b, b', name)
    ensures OneMore(a + b, a + b', name)
  {
    var i :| 0 <= i <= |b| && b' == b[..i] + [name] + b[i..];
    var k := |a| + i;
    assert (a + b)[..k] == a + b[..i] && (a + b)[k..] == b[i..];
    assert a + b' == (a + b)[..k] + [name] + (a + b)[k..];
  }

  lemma LessBefore(a: seq<string>, a': seq<string>, b: seq<string>, name: string)
    requires OneLess(a, a', name)
    ensures OneLess(a + b, a' + b, name)
  {
    var i :| IsCut(a, a', name, i);
    assert (a + b)[..i] == a[..i] && (a + b)[i + 1..] == a[i + 1..] + b;
    assert IsCut(a + b, a' + b, name, i);
  }

  lemma LessBehind(a: seq<string>, b: seq<string>, b': seq<string>, name: string)
    requires OneLess(b, b', name) && name !in a
    ensures OneLess(a + b, a + b', name)
  {
    var i :| IsCut(b, b', name, i);
    var k := |a| + i;
    assert (a + b)[..k] == a + b[..i] && (a + b)[k + 1..] == b[i + 1..];
    assert IsCut(a + b, a + b', name, k);
  }

  lemma {:induction false} InsertAddsOne(f: Forest, place: Place, name: string)
    ensures OneMore(Names(f), Names(Insert(f, place, name)), name)
    decreases f
  {
    if f.Nil? || place.Here? {
      assert Names(Insert(f, place, name)) == Names(f)[..0] + [name] + Names(f)[0..];
    } else if place.Up? {
      var up := Insert(f.kids, place.place, name);
      InsertAddsOne(f.kids, place.place, name);
      MoreBehind([f.name], Names(f.kids), Names(up), name);
      MoreBefore([f.name] + Names(f.kids), [f.name] + Names(up), Names(f.rest), name);
    } else {
      InsertAddsOne(f.rest, place.place, name);
      MoreBehind([f.name] + Names(f.kids), Names(f.rest), Names(Insert(f.rest, place.place, name)), name);
    }
  }

  /** Removing a snapshot with none on top of it takes out the one the lookup finds
      and nothing else. */
  lemma {:induction false} DeleteRemovesOne(f: Forest, name: string)
    requires Find(f, name).Some? && Find(f, name).value.kids.Nil?
    ensures OneLess(Names(f), Names(Delete(f, name)), name)
  {
    if f.name == name {
      assert IsCut(Names(f), Names(f.rest), name, 0);
    } else if name in Names(f.kids) {
      var up := Delete(f.kids, name);
      DeleteRemovesOne(f.kids, name);
      LessBehind([f.name], Names(f.kids), Names(up), name);
      LessBefore([f.name] + Names(f.kids), [f.name] + Names(up), Names(f.rest), name);
    } else {
      DeleteRemovesOne(f.rest, name);
      LessBehind([f.name] + Names(f.kids), Names(f.rest), Names(Delete(f.rest, name)), name);
    }
  }

  lemma DistinctWithMore(names: seq<string>, after: seq<string>, name: string)
    requires Distinct(names) && name !in names && OneMore(names, after, name)
    ensures Distinct(after) && |after| == |names| + 1
  {
    var i :| 0 <= i <= |names| && after == names[..i] + [name] + names[i..];
    assert forall j :: 0 <= j < |after| ==> after[j] == if j < i then names[j] else if j == i then name else names[j - 1];
  }

  lemma DistinctWithLess(names: seq<string>, after: seq<string>, name: string)
    requires Distinct(names) && OneLess(names, after, name)
    ensures Distinct(after) && |after| + 1 == |names| && name !in after
  {
    var i :| IsCut(names, after, name, i);
    assert forall j :: 0 <= j < |after| ==> after[j] == if j < i then names[j] else names[j + 1];
  }

  /******* The shape of the tree *******/

  /** Who is on top of whom; None for those on top of nothing. */
  function Edges(f: Forest, parent: Option<string>): set<(Option<string>, string)>
  {
    match f
    case Nil => {}
    case Cons(name, kids, rest) => {(parent, name)} + Edges(kids, Some(name)) + Edges(rest, parent)
  }

  lemma {:induction false} EdgesHaveNames(f: Forest, parent: Option<string>, e: (Option<string>, string))
    requires e in Edges(f, parent)
    ensures e.1 in Names(f)
  {
    if e in Edges(f.kids, Some(f.name)) {
      EdgesHaveNames(f.kids, Some(f.name), e);
    } else if e in Edges(f.rest, parent) {
      EdgesHaveNames(f.rest, parent, e);
    }
  }

  /** No snapshot changes its parent when one is added. */
  lemma {:induction false} InsertKeepsParents(f: Forest, place: Place, name: string, parent: Option<string>)
    returns (p: Option<string>)
    ensures Edges(Insert(f, place, name), parent) == Edges(f, parent) + {(p, name)}
    decreases f
  {
    if f.Nil? || place.Here? {
      p := parent;
    } else if place.Up? {
      p := InsertKeepsParents(f.kids, place.place, name, Some(f.name));
    } else {
      p := InsertKeepsParents(f.rest, place.place, name, parent);
    }
  }

  lemma DistinctHalves(a: seq<string>, b: seq<string>)
    requires Distinct(a + b)
    ensures Distinct(a) && Distinct(b) && forall n <- a :: n !in b
  {
    assert forall i :: 0 <= i < |a| ==> (a + b)[i] == a[i];
    assert forall i :: 0 <= i < |b| ==> (a + b)[|a| + i] == b[i];
  }

  lemma DistinctParts(f: Forest)
    requires f.Cons? && Distinct(Names(f))
    ensures Distinct(Names(f.kids)) && Distinct(Names(f.rest))
    ensures f.name !in Names(f.kids) && f.name !in Names(f.rest)
    ensures forall n <- Names(f.kids) :: n !in Names(f.rest)
  {
    var top, kids := [f.name], Names(f.kids);
    DistinctHalves(top + kids, Names(f.rest));
    DistinctHalves(top, kids);
    assert top[0] in top && forall n :: n in top || n in kids ==> n in top + kids;
  }

  lemma NotAnEdge(f: Forest, parent: Option<string>, p: Option<string>, name: string)
    requires name !in Names(f)
    ensures (p, name) !in Edges(f, parent)
  {
    if (p, name) in Edges(f, parent) {
      EdgesHaveNames(f, parent, (p, name));
    }
  }

  /** Nor when one with none on top of it is removed. */
  lemma {:induction false} DeleteKeepsParents(f: Forest, name: string, parent: Option<string>) returns (p: Option<string>)
    requires Distinct(Names(f)) && Find(f, name).Some? && Find(f, name).value.kids.Nil?
    ensures (p, name) in Edges(f, parent)
    ensures Edges(Delete(f, name), parent) == Edges(f, parent) - {(p, name)}
  {
    DistinctParts(f);
    if f.name == name {
      p := parent;
      NotAnEdge(f.rest, parent, p, name);
    } else if name in Names(f.kids) {
      p := DeleteKeepsParents(f.kids, name, Some(f.name));
      NotAnEdge(f.rest, parent, p, name);
    } else {
      p := DeleteKeepsParents(f.rest, name, parent);
      NotAnEdge(f.kids, Some(f.name), p, name);
    }
  }

  lemma {:induction false} NothingOnTop(f: Forest, parent: Option<string>, name: string, c: string)
    requires name !in Names(f) && parent != Some(name)
    ensures (Some(name), c) !in Edges(f, parent)
  {
    if f.Cons? {
      NothingOnTop(f.kids, Some(f.name), name, c);
      NothingOnTop(f.rest, parent, name, c);
    }
  }

  lemma {:induction false} OnTopOfParent(f: Forest, parent: string, c: string)
    requires parent !in Names(f)
    ensures (Some(parent), c) in Edges(f, Some(parent)) <==> c in Siblings(f)
  {
    if f.Cons? {
      NothingOnTop(f.kids, Some(f.name), parent, c);
      OnTopOfParent(f.rest, parent, c);
    }
  }

  /** The names listed when a removal is refused are those of the snapshots on top
      of the one found. */
  lemma {:induction false} ListedAreOnTop(f: Forest, parent: Option<string>, name: string, c: string)
    requires Distinct(Names(f)) && parent != Some(name) && Find(f, name).Some?
    ensures (Some(name), c) in Edges(f, parent) <==> c in Siblings(Find(f, name).value.kids)
  {
    DistinctParts(f);
    if f.name == name {
      OnTopOfParent(f.kids, name, c);
      NothingOnTop(f.rest, parent, name, c);
    } else if name in Names(f.kids) {
      ListedAreOnTop(f.kids, Some(f.name), name, c);
      NothingOnTop(f.rest, parent, name, c);
    } else {
      NothingOnTop(f.kids, Some(f.name), name, c);
      ListedAreOnTop(f.rest, parent, name, c);
    }
  }

  lemma {:induction false} NameAfterInsert(f: Forest, place: Place, name: string)
    ensures name in Names(Insert(f, place, name))
  {
    InsertAddsOne(f, place, name);
  }

  /** Removing the snapshot just taken gives the tree back. */
  lemma {:induction false} RemoveUndoesBackup(f: Forest, place: Place, name: string)
    requires name !in Names(f)
    ensures var with_ := Insert(f, place, name);
            && Find(with_, name) == Some(Snapshot(name, Nil)) && Delete(with_, name) == f
    decreases f
  {
    if f.Nil? || place.Here? {
    } else if place.Up? {
      RemoveUndoesBackup(f.kids, place.place, name);
      NameAfterInsert(f.kids, place.place, name);
    } else {
      RemoveUndoesBackup(f.rest, place.place, name);
    }
  }

  /******* Runs *******/

  /** What one operation does: a backup adds its name, a removal takes it out, and
      nothing else changes; names stay unique. */
  lemma StepKeepsNames(f: Forest, op: Operation)
    requires Distinct(Names(f))
    ensures var before, after := Names(f), Names(Apply(f, op));
            && Distinct(after)
            && (Refusal(f, op).Some? || op.Restore? || (op.Backup? && op.retry) ==> Apply(f, op) == f)
            && (Refusal(f, op).None? && op.Backup? && !op.retry ==>
                  OneMore(before, after, op.name) && |after| == |before| + 1)
            && (Refusal(f, op).None? && op.Remove? ==>
                  OneLess(before, after, op.name) && |after| + 1 == |before| && op.name !in after)
  {
    if Refusal(f, op).None? {
      var before, after := Names(f), Names(Apply(f, op));
      match op
      case Backup(name, place, _, retry) =>
        if !retry {
          InsertAddsOne(f, place, name);
          DistinctWithMore(before, after, name);
        }
      case Remove(name, _) =>
        DeleteRemovesOne(f, name);
        DistinctWithLess(before, after, name);
      case Restore(_, _) =>
    }
  }

  /** A removal that is begun again after it was done is refused. */
  lemma RemovedIsGone(f: Forest, name: string, done: bool)
    requires Distinct(Names(f)) && Refusal(f, Remove(name, true)).None?
    ensures Refusal(Apply(f, Remove(name, true)), Remove(name, done)) == Some(NotFound)
  {
    StepKeepsNames(f, Remove(name, true));
  }

  function AfterAll(f: Forest, ops: seq<Operation>): Forest
    decreases |ops|
  {
    if ops == [] then f else AfterAll(Apply(f, ops[0]), ops[1..])
  }

  /** How many backups other than retries, and how many removals, were not refused. */
  function Backups(f: Forest, ops: seq<Operation>): nat
    decreases |ops|
  {
    if ops == [] then 0
    else
      (if ops[0].Backup? && !ops[0].retry && Refusal(f, ops[0]).None? then 1 else 0) +
      Backups(Apply(f, ops[0]), ops[1..])
  }

  function Removals(f: Forest, ops: seq<Operation>): nat
    decreases |ops|
  {
    if ops == [] then 0
    else (if ops[0].Remove? && Refusal(f, ops[0]).None? then 1 else 0) + Removals(Apply(f, ops[0]), ops[1..])
  }

  /** Over every run, names stay unique and no snapshot is lost or made up. */
  lemma {:induction false} RunKeepsCount(f: Forest, ops: seq<Operation>)
    requires Distinct(Names(f))
    ensures Distinct(Names(AfterAll(f, ops)))
    ensures |Names(AfterAll(f, ops))| + Removals(f, ops) == |Names(f)| + Backups(f, ops)
    decreases |ops|
  {
    if ops != [] {
      StepKeepsNames(f, ops[0]);
      RunKeepsCount(Apply(f, ops[0]), ops[1..]);
    }
  }

  lemma KidsAreOnTop(f: Forest, name: string)
    requires Find(f, name).Some?
    ensures Distinct(Names(f)) ==>
              forall c :: (Some(name), c) in Edges(f, None) <==> c in Siblings(Find(f, name).value.kids)
    ensures Find(f, name).value.kids.Nil? <==> forall c :: c !in Siblings(Find(f, name).value.kids)
  {
    if Distinct(Names(f)) {
      forall c ensures (Some(name), c) in Edges(f, None) <==> c in Siblings(Find(f, name).value.kids) {
        ListedAreOnTop(f, None, name, c);
      }
    }
    var kids := Find(f, name).value.kids;
    assert kids.Cons? ==> kids.name in Siblings(kids);
  }

  lemma BackupAddsOne(f: Forest, name: string, place: Place, done: bool, retry: bool)
    ensures var op := Backup(name, place, done, retry);
            Refusal(f, op).None? && !retry ==> OneMore(Names(f), Names(Apply(f, op)), name)
  {
    InsertAddsOne(f, place, name);
  }

  /******* The client *******/

  class Machine {
    var snapshots: Forest

    constructor ()
      ensures snapshots == Nil
    {
      snapshots := Nil;
    }

    /** `backup_server`. */
    method BackupServer(name: string, place: Place, done: bool, retry: bool) returns (refused: Option<Refused>)
      modifies this
      ensures refused == Some(AlreadyExists) <==> !retry && name in Names(old(snapshots))
      ensures refused.None? <==> done && (retry || name !in Names(old(snapshots)))
      ensures refused.Some? || retry ==> snapshots == old(snapshots)
      ensures refused.None? && !retry ==> OneMore(Names(old(snapshots)), Names(snapshots), name)
      ensures refused == old(Refusal(snapshots, Backup(name, place, done, retry)))
      ensures snapshots == old(Apply(snapshots, Backup(name, place, done, retry)))
    {
      BackupAddsOne(snapshots, name, place, done, retry);
      if !retry {
        if snapshots != Nil {
          var snapshot := Find(snapshots, name);
          if snapshot.Some? {
            return Some(AlreadyExists);
          }
        }
        if done {
          snapshots := Insert(snapshots, place, name);
        }
      }
      return if done then None else Some(TaskFailed);
    }

    /** `restore_server`. */
    method RestoreServer(name: string, done: bool) returns (refused: Option<Refused>)
      ensures refused == Some(NotFound) <==> name !in Names(snapshots)
      ensures refused.None? <==> done && name in Names(snapshots)
      ensures refused == Refusal(snapshots, Restore(name, done))
    {
      var snapshot := if snapshots != Nil then Find(snapshots, name) else None;
      if snapshot.None? {
        return Some(NotFound);
      }
      return if done then None else Some(TaskFailed);
    }

    /** `remove_backup`. */
    method RemoveBackup(name: string, done: bool) returns (refused: Option<Refused>)
      modifies this
      ensures refused == Some(NotFound) <==> name !in Names(old(snapshots))
      ensures Distinct(Names(old(snapshots))) && refused.Some? && refused.value.HasSnapshotsOnTop? ==>
                forall c :: c in refused.value.names <==> (Some(name), c) in Edges(old(snapshots), None)
      ensures Distinct(Names(old(snapshots))) ==>
                (refused.None? <==>
                   done && name in Names(old(snapshots)) && forall c :: (Some(name), c) !in Edges(old(snapshots), None))
      ensures refused.Some? ==> snapshots == old(snapshots)
      ensures refused.None? ==> OneLess(Names(old(snapshots)), Names(snapshots), name)
      ensures refused == old(Refusal(snapshots, Remove(name, done)))
      ensures snapshots == old(Apply(snapshots, Remove(name, done)))
    {
      var snapshot := if snapshots != Nil then Find(snapshots, name) else None;
      if snapshot.None? {
        return Some(NotFound);
      }
      KidsAreOnTop(snapshots, name);
      if snapshot.value.kids != Nil {
        return Some(HasSnapshotsOnTop(Siblings(snapshot.value.kids)));
      }
      if !done {
        return Some(TaskFailed);
      }
      DeleteRemovesOne(snapshots, name);
      snapshots := Delete(snapshots, name);
      return None;
    }
  }
}
