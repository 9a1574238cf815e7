/** The row mutators of the stakeholder repository as pure transformations of
    the two tables. Each yields the new tables and the row the statement
    returns, or the error the repository raises. */
module StakeholderMutations {
  import opened Wrappers
  import opened Schema
  import Seqs
  import Q = StakeholderQueries

  /** The tables after a statement, and the row it returned. */
  datatype Change<T> = Change(after: Tables, row: T)

  /** Lines 249-262: `insert(object).returning('*')`. The primary key rejects
      a second row with the same id, and then no row comes back. */
  function InsertRow(t: Tables, row: Stakeholder): (r: Result<Change<Stakeholder>, Error>)
    ensures r.Success? <==> Find(t.stakeholders, row.id).None?
    ensures r.Failure? ==> r.error == CreateFailed
    ensures r.Success? ==>
              && r.value.row == row
              && Find(r.value.after.stakeholders, row.id) == Some(row)
              && (forall id :: id != row.id ==> Find(r.value.after.stakeholders, id) == Find(t.stakeholders, id))
              && |r.value.after.stakeholders| == |t.stakeholders| + 1
              && r.value.after.relations == t.relations
              && (UniqueIds(t.stakeholders) ==> UniqueIds(r.value.after.stakeholders))
  {
    if Find(t.stakeholders, row.id).Some? then Failure(CreateFailed)
    else
      var ss := t.stakeholders + [row];
      FindAppend(t.stakeholders, row);
      Success(Change(Tables(ss, t.relations), row))
  }

  /** Appending a row changes the lookup of its id only. */
  lemma {:induction false} FindAppend(ss: seq<Stakeholder>, row: Stakeholder)
    requires Find(ss, row.id).None?
    ensures Find(ss + [row], row.id) == Some(row)
    ensures forall id :: id != row.id ==> Find(ss + [row], id) == Find(ss, id)
  {
    if ss != [] {
      assert (ss + [row])[1..] == ss[1..] + [row];
      FindAppend(ss[1..], row);
    }
  }

  /** `.where('id', id)` on stakeholder rows, negated: the rows a delete
      keeps. */
  function IdIsNot(id: Uuid): Stakeholder -> bool {
    (s: Stakeholder) => s.id != id
  }

  /** Lines 264-278: `where('id', object.id).del().returning('*')`. An absent
      `object.id` is an undefined binding, which knex refuses; no deleted row
      fails the match. */
  function DeleteRow(t: Tables, patch: Patch): (r: Result<Change<Stakeholder>, Error>)
    ensures Id !in patch ==> r == Failure(MissingId)
    ensures Id in patch ==> (r.Success? <==> Find(t.stakeholders, patch[Id]).Some?)
    ensures Id in patch && r.Failure? ==> r.error == DeleteFailed
    ensures r.Success? ==>
              var id := patch[Id];
              && Some(r.value.row) == Find(t.stakeholders, id)
              && Find(r.value.after.stakeholders, id).None?
              && (forall other :: other != id ==> Find(r.value.after.stakeholders, other) == Find(t.stakeholders, other))
              && r.value.after.relations == t.relations
              && (UniqueIds(t.stakeholders) ==> UniqueIds(r.value.after.stakeholders))
  {
    if Id !in patch then Failure(MissingId)
    else
      var id := patch[Id];
      match Find(t.stakeholders, id)
      case None => Failure(DeleteFailed)
      case Some(s) =>
        var kept := Seqs.Filter(t.stakeholders, IdIsNot(id));
        FindRemove(t.stakeholders, id);
        Success(Change(Tables(kept, t.relations), s))
  }

  /** Removing the rows of one id changes the lookup of that id only and
      keeps the primary key. */
  lemma {:induction false} FindRemove(ss: seq<Stakeholder>, id: Uuid)
    ensures Find(Seqs.Filter(ss, IdIsNot(id)), id).None?
    ensures forall other :: other != id ==> Find(Seqs.Filter(ss, IdIsNot(id)), other) == Find(ss, other)
    ensures UniqueIds(ss) ==> UniqueIds(Seqs.Filter(ss, IdIsNot(id)))
  {
    if ss != [] {
      Seqs.FilterCons(ss[0], ss[1..], IdIsNot(id));
      FindRemove(ss[1..], id);
    }
    if UniqueIds(ss) {
      FilterKeepsUniqueIds(ss, IdIsNot(id));
    }
  }

  /** Dropping rows never repeats an id. */
  lemma {:induction false} FilterKeepsUniqueIds(ss: seq<Stakeholder>, p: Stakeholder -> bool)
    requires UniqueIds(ss)
    ensures UniqueIds(Seqs.Filter(ss, p))
  {
    if ss != [] {
      var tail := ss[1..];
      assert UniqueIds(tail) by {
        forall i, j | 0 <= i < j < |tail| ensures tail[i].id != tail[j].id {
          assert tail[i] == ss[i + 1] && tail[j] == ss[j + 1];
        }
      }
      FilterKeepsUniqueIds(tail, p);
      var rest := Seqs.Filter(tail, p);
      if p(ss[0]) {
        Seqs.FilterMembers(tail, p);
        forall j | 0 <= j < |rest| ensures rest[j].id != ss[0].id {
          assert rest[j] in tail;
          var k :| 0 <= k < |tail| && tail[k] == rest[j];
          assert tail[k] == ss[k + 1];
        }
        var r := [ss[0]] + rest;
        forall i, j | 0 <= i < j < |r| ensures r[i].id != r[j].id {
          if i == 0 {
            assert r[j] == rest[j - 1];
          } else {
            assert r[i] == rest[i - 1] && r[j] == rest[j - 1];
          }
        }
      }
    }
  }

  /** `update(object)`: every key of the object overwrites its column. */
  function ApplyPatch(s: Stakeholder, p: Patch): (r: Stakeholder)
    ensures forall c :: Get(r, c) == if c in p then p[c] else Get(s, c)
  {
    Stakeholder(
      Pick(p, Id, s.id), Pick(p, OrgName, s.orgName), Pick(p, FirstName, s.firstName),
      Pick(p, LastName, s.lastName), Pick(p, Email, s.email), Pick(p, Phone, s.phone),
      Pick(p, Website, s.website), Pick(p, Map, s.mapName), Pick(p, OwnerId, s.ownerId))
  }

  /** The patch's value for column `c`, or `v` when the patch leaves it out. */
  function Pick(p: Patch, c: Column, v: string): string {
    if c in p then p[c] else v
  }

  /** The stakeholder table with the patch applied to the rows of `id`. */
  function Patched(ss: seq<Stakeholder>, id: Uuid, p: Patch): (r: seq<Stakeholder>)
    ensures |r| == |ss|
  {
    seq(|ss|, k requires 0 <= k < |ss| => if ss[k].id == id then ApplyPatch(ss[k], p) else ss[k])
  }

  /** A patch whose `id` is the row's own id leaves the ids of the table
      as they were. */
  lemma PatchedIds(ss: seq<Stakeholder>, id: Uuid, p: Patch)
    requires Id in p && p[Id] == id
    ensures forall k :: 0 <= k < |ss| ==> Patched(ss, id, p)[k].id == ss[k].id
  {
    forall k | 0 <= k < |ss| ensures Patched(ss, id, p)[k].id == ss[k].id {
      assert Get(Patched(ss, id, p)[k], Id) == Get(ss[k], Id);
    }
  }

  lemma {:induction false} FindPatched(ss: seq<Stakeholder>, id: Uuid, p: Patch)
    requires Id in p && p[Id] == id
    ensures Find(Patched(ss, id, p), id) == match Find(ss, id) case Some(s) => Some(ApplyPatch(s, p)) case None => None
    ensures forall other :: other != id ==> Find(Patched(ss, id, p), other) == Find(ss, other)
  {
    PatchedIds(ss, id, p);
    if ss != [] {
      assert Patched(ss, id, p)[1..] == Patched(ss[1..], id, p);
      FindPatched(ss[1..], id, p);
    }
  }

  /** Lines 280-293: `where('id', object.id).update(object, ['*'])`. */
  function UpdateRow(t: Tables, patch: Patch): (r: Result<Change<Stakeholder>, Error>)
    ensures Id !in patch ==> r == Failure(MissingId)
    ensures Id in patch ==> (r.Success? <==> Find(t.stakeholders, patch[Id]).Some?)
    ensures Id in patch && r.Failure? ==> r.error == UpdateFailed
    ensures r.Success? ==>
              var id := patch[Id];
              && r.value.row == ApplyPatch(Find(t.stakeholders, id).value, patch)
              && r.value.row.id == id
              && Find(r.value.after.stakeholders, id) == Some(r.value.row)
              && (forall other :: other != id ==> Find(r.value.after.stakeholders, other) == Find(t.stakeholders, other))
              && r.value.after.relations == t.relations
              && (UniqueIds(t.stakeholders) ==> UniqueIds(r.value.after.stakeholders))
  {
    if Id !in patch then Failure(MissingId)
    else
      var id := patch[Id];
      match Find(t.stakeholders, id)
      case None => Failure(UpdateFailed)
      case Some(s) =>
        var ss := Patched(t.stakeholders, id, patch);
        FindPatched(t.stakeholders, id, patch);
        PatchedIds(t.stakeholders, id, patch);
        assert Get(ApplyPatch(s, patch), Id) == patch[Id];
        Success(Change(Tables(ss, t.relations), ApplyPatch(s, patch)))
  }

  /** Lines 357-366: `insert(stakeholder).returning('*')` into the relation
      table. Both endpoints are foreign keys into `stakeholder`. */
  function InsertEdge(t: Tables, e: Edge): (r: Result<Change<Edge>, Error>)
    ensures r.Success? <==> Find(t.stakeholders, e.parentId).Some? && Find(t.stakeholders, e.childId).Some?
    ensures r.Failure? ==> r.error == RelationCreateFailed
    ensures r.Success? ==> r.value.row == e && r.value.after == Tables(t.stakeholders, t.relations + [e])
  {
    if Find(t.stakeholders, e.parentId).None? || Find(t.stakeholders, e.childId).None? then Failure(RelationCreateFailed)
    else Success(Change(Tables(t.stakeholders, t.relations + [e]), e))
  }

  function MatchesAll(p: EdgePattern): Edge -> bool {
    (e: Edge) => MatchesPattern(e, p)
  }

  function MatchesNot(p: EdgePattern): Edge -> bool {
    (e: Edge) => !MatchesPattern(e, p)
  }

  /** Lines 368-382: `where(stakeholder).del().returning('*')` on the relation
      table; the first deleted row is returned. */
  function DeleteEdges(t: Tables, p: EdgePattern): (r: Result<Change<Edge>, Error>)
    ensures r.Success? <==> exists e :: e in t.relations && MatchesPattern(e, p)
    ensures r.Failure? ==> r.error == RelationDeleteFailed
    ensures r.Success? ==>
              && r.value.row in t.relations && MatchesPattern(r.value.row, p)
              && r.value.after.stakeholders == t.stakeholders
              && (forall e :: e in r.value.after.relations <==> e in t.relations && !MatchesPattern(e, p))
  {
    var removed := Seqs.Filter(t.relations, MatchesAll(p));
    Seqs.FilterMembers(t.relations, MatchesAll(p));
    Seqs.FilterMembers(t.relations, MatchesNot(p));
    if removed == [] then
      assert forall e :: e in t.relations ==> !MatchesPattern(e, p) by {
        forall e | e in t.relations ensures !MatchesPattern(e, p) {
          assert e !in removed;
        }
      }
      Failure(RelationDeleteFailed)
    else
      assert removed[0] in removed;
      Success(Change(Tables(t.stakeholders, Seqs.Filter(t.relations, MatchesNot(p))), removed[0]))
  }

  /** Every edge is either removed or kept, in table order, so the deleted
      and the kept edges together are the old relation table. */
  lemma DeleteEdgesPartition(t: Tables, p: EdgePattern)
    requires DeleteEdges(t, p).Success?
    ensures multiset(DeleteEdges(t, p).value.after.relations) + multiset(Seqs.Filter(t.relations, MatchesAll(p)))
            == multiset(t.relations)
  {
    Seqs.FilterMultiset(t.relations, MatchesAll(p));
    Seqs.FilterMultiset(t.relations, MatchesNot(p));
    var kept := DeleteEdges(t, p).value.after.relations;
    var gone := Seqs.Filter(t.relations, MatchesAll(p));
    forall e ensures (multiset(kept) + multiset(gone))[e] == multiset(t.relations)[e] {
    }
  }

  /** A second identical relation delete finds nothing left and fails. */
  lemma DeleteEdgesExhausts(t: Tables, p: EdgePattern)
    requires DeleteEdges(t, p).Success?
    ensures DeleteEdges(DeleteEdges(t, p).value.after, p) == Failure(RelationDeleteFailed)
  {
  }

  /** Inserting a row and deleting it by its id gives the tables back. */
  lemma InsertThenDelete(t: Tables, row: Stakeholder)
    requires InsertRow(t, row).Success?
    ensures DeleteRow(InsertRow(t, row).value.after, map[Id := row.id]) == Success(Change(t, row))
  {
    var ss := t.stakeholders;
    var after := InsertRow(t, row).value.after;
    assert after.stakeholders == ss + [row];
    Seqs.FilterAppend(ss, [row], IdIsNot(row.id));
    Seqs.FilterAll(ss, IdIsNot(row.id));
    Seqs.FilterNone([row], IdIsNot(row.id));
    assert Seqs.Filter(after.stakeholders, IdIsNot(row.id)) == ss;
    assert map[Id := row.id][Id] == row.id;
    assert Find(after.stakeholders, row.id) == Some(row);
  }

  /** Applying the same update twice leaves the tables as applying it once. */
  lemma UpdateIdempotent(t: Tables, patch: Patch)
    requires UpdateRow(t, patch).Success?
    ensures var once := UpdateRow(t, patch).value;
            UpdateRow(once.after, patch) == Success(once)
  {
    var id := patch[Id];
    var once := UpdateRow(t, patch).value;
    var twice := Patched(once.after.stakeholders, id, patch);
    forall k | 0 <= k < |twice| ensures twice[k] == once.after.stakeholders[k] {
      var s := once.after.stakeholders[k];
      if s.id == id {
        assert s == ApplyPatch(t.stakeholders[k], patch);
        assert forall c :: Get(ApplyPatch(s, patch), c) == Get(s, c);
        PatchTwice(t.stakeholders[k], patch);
      }
    }
    assert twice == once.after.stakeholders;
    PatchTwice(Find(t.stakeholders, id).value, patch);
  }

  lemma PatchTwice(s: Stakeholder, p: Patch)
    ensures ApplyPatch(ApplyPatch(s, p), p) == ApplyPatch(s, p)
  {
  }

  /** A stored relation makes each endpoint visible from the other: the
      child among the parent's children, the parent among the child's
      parents. */
  lemma InsertedEdgeVisible(t: Tables, e: Edge)
    requires UniqueIds(t.stakeholders)
    requires InsertEdge(t, e).Success?
    ensures var after := InsertEdge(t, e).value.after;
            && Find(t.stakeholders, e.childId).value in Q.GetChildren(after, e.parentId)
            && Find(t.stakeholders, e.parentId).value in Q.GetParents(after, e.childId)
  {
    var after := InsertEdge(t, e).value.after;
    var child := Find(t.stakeholders, e.childId).value;
    var parent := Find(t.stakeholders, e.parentId).value;
    assert e in after.relations;
    Q.GetChildrenSpec(after, e.parentId);
    assert Q.HasEdge(after.relations, e.parentId, child.id);
    assert multiset(Q.GetChildren(after, e.parentId))[child] == 1;
    Q.GetParentsSpec(after, e.childId);
    assert Q.ParentOf(after, parent.id, e.childId);
    assert multiset(Q.GetParents(after, e.childId))[parent] == 1;
  }
}
