/** The stakeholder service: each write runs begin, the repository steps and
    commit on one session, and on any error rolls back if a transaction is
    still in progress before handing the error on unchanged.

    The model layer between the service and the repository is not part of
    this model. Each of its calls is a translation parameter that turns the
    service's arguments into the repository's, or fails. Whether begin or
    commit fails is connection I/O and is a parameter too. */
module Service {
  import opened Wrappers
  import opened Schema
  import Seqs
  import Q = StakeholderQueries
  import M = StakeholderMutations
  import S = Session
  import R = Repository

  /** The body of a create request: the stakeholder's own fields, and the
      `relation` and `relation_id` of the edge to create with it. */
  datatype CreateRequest = CreateRequest(fields: Patch, relation: string, relationId: string)

  /** Line 25-28: what the service hands on for the edge of a create: the
      request's relation, the created row and the request's relation id. */
  datatype RelationRequest = RelationRequest(kind: string, data: Stakeholder, relationId: string)

  /** The body of a delete request: the relation `type` and the `data` that
      addresses the stakeholder. */
  datatype DeleteRequest = DeleteRequest(kind: string, data: Patch)

  /** Whether the connection fails `beginTransaction()` and
      `commitTransaction()`. */
  datatype Faults = Faults(atBegin: bool, atCommit: bool)

  /** JavaScript truthiness of the route's `id`. */
  predicate IdGiven(id: Option<Uuid>) {
    id.Some? && id.value != ""
  }

  /** Lines 31 and 51: the listing returned after a commit. Both reads go
      through the model layer with no options. */
  function Refreshed(t: Tables, id: Option<Uuid>): Q.Listing {
    if IdGiven(id) then Q.GetAllStakeholdersById(t, id.value, None) else Q.GetAllStakeholders(t, None)
  }

  /** With an id the refreshed listing holds only that stakeholder; without
      one it is the whole root listing with the table's size as count. */
  lemma RefreshedSpec(t: Tables, id: Option<Uuid>)
    requires UniqueIds(t.stakeholders)
    ensures var r := Refreshed(t, id);
            IdGiven(id) ==> (forall x :: x in r.stakeholders ==> x.id == id.value && x in t.stakeholders) && r.count <= 1
    ensures var r := Refreshed(t, id);
            !IdGiven(id) ==>
              && (forall x :: multiset(r.stakeholders)[x] == if x in t.stakeholders && Q.IsRoot(t, x.id) then 1 else 0)
              && r.count == |t.stakeholders|
  {
    if IdGiven(id) {
      Q.GetAllStakeholdersByIdSpec(t, id.value, None);
    } else {
      Q.RootListingSpec(t);
      Q.GetAllStakeholdersPage(t, None, None);
    }
  }

  /** The error a failed write reports: a failed begin, else the first
      failing step, else the failed commit. */
  function FirstError<X>(faults: Faults, w: Result<X, Error>): Error {
    if faults.atBegin then BeginFailed else if w.Failure? then w.error else CommitFailed
  }

  /** Lines 20-28 without the transaction: the model layer's row, its
      insert, the model layer's edge for the created row, its insert. */
  function CreateWrites(t: Tables, id: Option<Uuid>, request: CreateRequest,
                        rowOf: (Option<Uuid>, CreateRequest) -> Result<Stakeholder, Error>,
                        edgeOf: (Option<Uuid>, RelationRequest) -> Result<Edge, Error>): Result<Tables, Error>
  {
    match rowOf(id, request)
    case Failure(e) => Failure(e)
    case Success(row) =>
      match M.InsertRow(t, row)
      case Failure(e) => Failure(e)
      case Success(created) =>
        match edgeOf(id, RelationRequest(request.relation, created.row, request.relationId))
        case Failure(e) => Failure(e)
        case Success(edge) =>
          match M.InsertEdge(created.after, edge)
          case Failure(e) => Failure(e)
          case Success(linked) => Success(linked.after)
  }

  /** A committed create stores the model layer's row under a new id, changes
      no other stakeholder, and appends the model layer's edge for that row,
      whose two ends are stored. */
  lemma CreateWritesSpec(t: Tables, id: Option<Uuid>, request: CreateRequest,
                         rowOf: (Option<Uuid>, CreateRequest) -> Result<Stakeholder, Error>,
                         edgeOf: (Option<Uuid>, RelationRequest) -> Result<Edge, Error>)
    ensures var r := CreateWrites(t, id, request, rowOf, edgeOf);
            r.Success? ==>
              && rowOf(id, request).Success?
              && var row := rowOf(id, request).value;
                 && Find(t.stakeholders, row.id).None?
                 && Find(r.value.stakeholders, row.id) == Some(row)
                 && (forall other :: other != row.id ==> Find(r.value.stakeholders, other) == Find(t.stakeholders, other))
                 && edgeOf(id, RelationRequest(request.relation, row, request.relationId)).Success?
                 && var e := edgeOf(id, RelationRequest(request.relation, row, request.relationId)).value;
                    && r.value.relations == t.relations + [e]
                    && Find(r.value.stakeholders, e.parentId).Some?
                    && Find(r.value.stakeholders, e.childId).Some?
  {
  }

  lemma CreateWritesKeepKey(t: Tables, id: Option<Uuid>, request: CreateRequest,
                            rowOf: (Option<Uuid>, CreateRequest) -> Result<Stakeholder, Error>,
                            edgeOf: (Option<Uuid>, RelationRequest) -> Result<Edge, Error>)
    requires UniqueIds(t.stakeholders)
    ensures var r := CreateWrites(t, id, request, rowOf, edgeOf);
            r.Success? ==> UniqueIds(r.value.stakeholders)
  {
  }

  /** Lines 42-48 without the transaction. The stakeholder delete is given
      `data` only: the model layer does not use the id (line 43). */
  function DeleteWrites(t: Tables, id: Option<Uuid>, request: DeleteRequest,
                        objectOf: Patch -> Result<Patch, Error>,
                        patternOf: (Option<Uuid>, DeleteRequest) -> Result<EdgePattern, Error>): Result<Tables, Error>
  {
    match objectOf(request.data)
    case Failure(e) => Failure(e)
    case Success(patch) =>
      match M.DeleteRow(t, patch)
      case Failure(e) => Failure(e)
      case Success(deleted) =>
        match patternOf(id, request)
        case Failure(e) => Failure(e)
        case Success(p) =>
          match M.DeleteEdges(deleted.after, p)
          case Failure(e) => Failure(e)
          case Success(unlinked) => Success(unlinked.after)
  }

  /** A committed delete removes the stakeholder that `request.data`
      addresses and nobody else, and removes exactly the edges matching the
      relation pattern, of which there was at least one. */
  lemma DeleteWritesSpec(t: Tables, id: Option<Uuid>, request: DeleteRequest,
                         objectOf: Patch -> Result<Patch, Error>,
                         patternOf: (Option<Uuid>, DeleteRequest) -> Result<EdgePattern, Error>)
    ensures var r := DeleteWrites(t, id, request, objectOf, patternOf);
            r.Success? ==>
              && objectOf(request.data).Success?
              && Id in objectOf(request.data).value
              && var gone := objectOf(request.data).value[Id];
                 && Find(t.stakeholders, gone).Some?
                 && Find(r.value.stakeholders, gone).None?
                 && (forall other :: other != gone ==> Find(r.value.stakeholders, other) == Find(t.stakeholders, other))
                 && patternOf(id, request).Success?
                 && var p := patternOf(id, request).value;
                    && (exists e :: e in t.relations && MatchesPattern(e, p))
                    && (forall e :: e in r.value.relations <==> e in t.relations && !MatchesPattern(e, p))
                    && (forall e :: multiset(r.value.relations)[e]
                                   == if MatchesPattern(e, p) then 0 else multiset(t.relations)[e])
  {
    var r := DeleteWrites(t, id, request, objectOf, patternOf);
    if r.Success? {
      var deleted := M.DeleteRow(t, objectOf(request.data).value).value;
      var p := patternOf(id, request).value;
      M.DeleteEdgesPartition(deleted.after, p);
      Seqs.FilterMultiset(t.relations, M.MatchesAll(p));
    }
  }

  lemma DeleteWritesKeepKey(t: Tables, id: Option<Uuid>, request: DeleteRequest,
                            objectOf: Patch -> Result<Patch, Error>,
                            patternOf: (Option<Uuid>, DeleteRequest) -> Result<EdgePattern, Error>)
    requires UniqueIds(t.stakeholders)
    ensures var r := DeleteWrites(t, id, request, objectOf, patternOf);
            r.Success? ==> UniqueIds(r.value.stakeholders)
  {
  }

  /** Lines 62-67 without the transaction: the model layer's update object
      and the update. */
  function UpdateWrites(t: Tables, id: Option<Uuid>, request: Patch,
                        objectOf: (Option<Uuid>, Patch) -> Result<Patch, Error>): Result<M.Change<Stakeholder>, Error>
  {
    match objectOf(id, request)
    case Failure(e) => Failure(e)
    case Success(patch) => M.UpdateRow(t, patch)
  }

  /** A committed update rewrites the one addressed stakeholder, returns it
      as stored, and leaves the edge table untouched. */
  lemma UpdateWritesSpec(t: Tables, id: Option<Uuid>, request: Patch,
                         objectOf: (Option<Uuid>, Patch) -> Result<Patch, Error>)
    ensures var r := UpdateWrites(t, id, request, objectOf);
            r.Success? ==>
              && objectOf(id, request).Success?
              && Id in objectOf(id, request).value
              && var changed := objectOf(id, request).value[Id];
                 && r.value.row.id == changed
                 && Find(r.value.after.stakeholders, changed) == Some(r.value.row)
                 && (forall other :: other != changed ==> Find(r.value.after.stakeholders, other) == Find(t.stakeholders, other))
                 && r.value.after.relations == t.relations
  {
  }

  lemma UpdateWritesKeepKey(t: Tables, id: Option<Uuid>, request: Patch,
                            objectOf: (Option<Uuid>, Patch) -> Result<Patch, Error>)
    requires UniqueIds(t.stakeholders)
    ensures var r := UpdateWrites(t, id, request, objectOf);
            r.Success? ==> UniqueIds(r.value.after.stakeholders)
  {
  }

  class StakeholderService {
    const session: S.Session
    const repo: R.StakeholderRepository

    /** Between calls no transaction is open, the session's log is balanced
      and `id` is the key of the stakeholder table. */
    ghost predicate Valid()
      reads this, session
    {
      && repo.session == session
      && session.Valid()
      && session.state != S.Active
      && UniqueIds(session.tables.stakeholders)
    }

    constructor(initial: Tables)
      requires UniqueIds(initial.stakeholders)
      ensures Valid() && fresh(session)
      ensures session.tables == initial && session.state == S.Idle && session.events == []
    {
      var s := new S.Session(initial);
      session := s;
      repo := new R.StakeholderRepository(s);
    }

    /** Lines 32-37: the catch block. The rollback runs only while a
      transaction is in progress; the error is handed on as it came. */
    method Abort<T>(e: Error) returns (r: Result<T, Error>)
      requires session.Valid()
      modifies session
      ensures session.Valid() && r == Failure(e) && session.state != S.Active
      ensures old(session.state) == S.Active ==>
                session.tables == old(session.snapshot) && session.events == old(session.events) + [S.Rollback]
      ensures old(session.state) != S.Active ==>
                && session.state == old(session.state) && session.tables == old(session.tables)
                && session.snapshot == old(session.snapshot) && session.events == old(session.events)
    {
      if session.IsTransactionInProgress() {
        session.RollbackTransaction();
      }
      r := Failure(e);
    }

    /** Lines 29-30 and 32-37 after the writes: commit, or roll back when the
      commit fails. */
    method Close(fails: bool) returns (r: Result<(), Error>)
      requires session.Valid() && session.state == S.Active
      modifies session
      ensures session.Valid() && session.state != S.Active
      ensures !fails ==> r.Success? && session.tables == old(session.tables) && session.events == old(session.events) + [S.Commit]
      ensures fails ==> r == Failure(CommitFailed) && session.tables == old(session.snapshot) && session.events == old(session.events) + [S.Rollback]
    {
      r := session.CommitTransaction(fails);
      if r.Failure? {
        r := Abort(r.error);
      }
    }

    /** Lines 21-28: the two writes of a create inside the open transaction.
      A failing step leaves whatever the earlier steps did for the rollback
      to undo. */
    method CreateSteps(id: Option<Uuid>, request: CreateRequest,
                       rowOf: (Option<Uuid>, CreateRequest) -> Result<Stakeholder, Error>,
                       edgeOf: (Option<Uuid>, RelationRequest) -> Result<Edge, Error>)
      returns (r: Result<(), Error>)
      requires repo.session == session
      modifies session`tables
      ensures var w := CreateWrites(old(session.tables), id, request, rowOf, edgeOf);
              && (r.Success? <==> w.Success?)
              && (r.Success? ==> session.tables == w.value)
              && (r.Failure? ==> r.error == w.error)
    {
      var row := rowOf(id, request);
      if row.Failure? {
        return Failure(row.error);
      }
      var created := repo.CreateStakeholder(row.value);
      if created.Failure? {
        return Failure(created.error);
      }
      var edge := edgeOf(id, RelationRequest(request.relation, created.value, request.relationId));
      if edge.Failure? {
        return Failure(edge.error);
      }
      var linked := repo.CreateRelation(edge.value);
      if linked.Failure? {
        return Failure(linked.error);
      }
      return Success(());
    }

    /** Lines 19-30, 32-37: begin, the writes, commit, and the guarded
      rollback on any error. */
    method CreateTransaction(id: Option<Uuid>, request: CreateRequest, faults: Faults,
                             rowOf: (Option<Uuid>, CreateRequest) -> Result<Stakeholder, Error>,
                             edgeOf: (Option<Uuid>, RelationRequest) -> Result<Edge, Error>)
      returns (r: Result<(), Error>)
      requires Valid()
      modifies session
      ensures Valid()
      ensures r.Success? <==> !faults.atBegin && CreateWrites(old(session.tables), id, request, rowOf, edgeOf).Success? && !faults.atCommit
      ensures r.Success? ==> CreateWrites(old(session.tables), id, request, rowOf, edgeOf) == Success(session.tables)
      ensures r.Success? ==> session.events == old(session.events) + [S.Began] + [S.Commit]
      ensures r.Failure? ==> session.tables == old(session.tables)
      ensures r.Failure? ==> r.error == FirstError(faults, CreateWrites(old(session.tables), id, request, rowOf, edgeOf))
      ensures r.Failure? && !faults.atBegin ==> session.events == old(session.events) + [S.Began] + [S.Rollback]
      ensures faults.atBegin ==> session.events == old(session.events)
    {
      CreateWritesKeepKey(session.tables, id, request, rowOf, edgeOf);
      var begun := session.BeginTransaction(faults.atBegin);
      if begun.Failure? {
        r := Abort(begun.error);
        return;
      }
      var done := CreateSteps(id, request, rowOf, edgeOf);
      if done.Failure? {
        r := Abort(done.error);
        return;
      }
      var committed := Close(faults.atCommit);
      if committed.Failure? {
        return Failure(committed.error);
      }
      r := Success(());
    }

    /** Lines 18-38. Nothing is committed unless every step succeeds; a
      failure after the stakeholder insert leaves both tables as they were
      before begin; after a commit the listing is read. */
    method CreateStakeholder(id: Option<Uuid>, request: CreateRequest, faults: Faults,
                             rowOf: (Option<Uuid>, CreateRequest) -> Result<Stakeholder, Error>,
                             edgeOf: (Option<Uuid>, RelationRequest) -> Result<Edge, Error>)
      returns (r: Result<Q.Listing, Error>)
      requires Valid()
      modifies session
      ensures Valid()
      ensures r.Success? <==> !faults.atBegin && CreateWrites(old(session.tables), id, request, rowOf, edgeOf).Success? && !faults.atCommit
      ensures r.Success? ==> CreateWrites(old(session.tables), id, request, rowOf, edgeOf) == Success(session.tables)
      ensures r.Success? ==> r.value == Refreshed(session.tables, id)
      ensures r.Success? ==> session.events == old(session.events) + [S.Began] + [S.Commit]
      ensures r.Failure? ==> session.tables == old(session.tables)
      ensures r.Failure? ==> r.error == FirstError(faults, CreateWrites(old(session.tables), id, request, rowOf, edgeOf))
      ensures r.Failure? && !faults.atBegin ==> session.events == old(session.events) + [S.Began] + [S.Rollback]
      ensures faults.atBegin ==> session.events == old(session.events)
    {
      var done := CreateTransaction(id, request, faults, rowOf, edgeOf);
      if done.Failure? {
        return Failure(done.error);
      }
      return Success(Refreshed(session.tables, id));
    }

    /** Lines 44-48: the two deletes inside the open transaction. */
    method DeleteSteps(id: Option<Uuid>, request: DeleteRequest,
                       objectOf: Patch -> Result<Patch, Error>,
                       patternOf: (Option<Uuid>, DeleteRequest) -> Result<EdgePattern, Error>)
      returns (r: Result<(), Error>)
      requires repo.session == session
      modifies session`tables
      ensures var w := DeleteWrites(old(session.tables), id, request, objectOf, patternOf);
              && (r.Success? <==> w.Success?)
              && (r.Success? ==> session.tables == w.value)
              && (r.Failure? ==> r.error == w.error)
    {
      var patch := objectOf(request.data);
      if patch.Failure? {
        return Failure(patch.error);
      }
      var deleted := repo.DeleteStakeholder(patch.value);
      if deleted.Failure? {
        return Failure(deleted.error);
      }
      var pattern := patternOf(id, request);
      if pattern.Failure? {
        return Failure(pattern.error);
      }
      var unlinked := repo.DeleteRelation(pattern.value);
      if unlinked.Failure? {
        return Failure(unlinked.error);
      }
      return Success(());
    }

    /** Lines 41-49, 52-57: begin, the deletes, commit, and the guarded
      rollback on any error. */
    method DeleteTransaction(id: Option<Uuid>, request: DeleteRequest, faults: Faults,
                             objectOf: Patch -> Result<Patch, Error>,
                             patternOf: (Option<Uuid>, DeleteRequest) -> Result<EdgePattern, Error>)
      returns (r: Result<(), Error>)
      requires Valid()
      modifies session
      ensures Valid()
      ensures r.Success? <==> !faults.atBegin && DeleteWrites(old(session.tables), id, request, objectOf, patternOf).Success? && !faults.atCommit
      ensures r.Success? ==> DeleteWrites(old(session.tables), id, request, objectOf, patternOf) == Success(session.tables)
      ensures r.Success? ==> session.events == old(session.events) + [S.Began] + [S.Commit]
      ensures r.Failure? ==> session.tables == old(session.tables)
      ensures r.Failure? ==> r.error == FirstError(faults, DeleteWrites(old(session.tables), id, request, objectOf, patternOf))
      ensures r.Failure? && !faults.atBegin ==> session.events == old(session.events) + [S.Began] + [S.Rollback]
      ensures faults.atBegin ==> session.events == old(session.events)
    {
      DeleteWritesKeepKey(session.tables, id, request, objectOf, patternOf);
      var begun := session.BeginTransaction(faults.atBegin);
      if begun.Failure? {
        r := Abort(begun.error);
        return;
      }
      var done := DeleteSteps(id, request, objectOf, patternOf);
      if done.Failure? {
        r := Abort(done.error);
        return;
      }
      var committed := Close(faults.atCommit);
      if committed.Failure? {
        return Failure(committed.error);
      }
      r := Success(());
    }

    /** Lines 40-58. The stakeholder removed is the one `request.data`
      addresses; the relation delete runs in the same transaction, and a
      failure of either leaves both tables as they were; after a commit the
      listing is read. */
    method DeleteStakeholder(id: Option<Uuid>, request: DeleteRequest, faults: Faults,
                             objectOf: Patch -> Result<Patch, Error>,
                             patternOf: (Option<Uuid>, DeleteRequest) -> Result<EdgePattern, Error>)
      returns (r: Result<Q.Listing, Error>)
      requires Valid()
      modifies session
      ensures Valid()
      ensures r.Success? <==> !faults.atBegin && DeleteWrites(old(session.tables), id, request, objectOf, patternOf).Success? && !faults.atCommit
      ensures r.Success? ==> DeleteWrites(old(session.tables), id, request, objectOf, patternOf) == Success(session.tables)
      ensures r.Success? ==> r.value == Refreshed(session.tables, id)
      ensures r.Success? ==> session.events == old(session.events) + [S.Began] + [S.Commit]
      ensures r.Failure? ==> session.tables == old(session.tables)
      ensures r.Failure? ==> r.error == FirstError(faults, DeleteWrites(old(session.tables), id, request, objectOf, patternOf))
      ensures r.Failure? && !faults.atBegin ==> session.events == old(session.events) + [S.Began] + [S.Rollback]
      ensures faults.atBegin ==> session.events == old(session.events)
    {
      var done := DeleteTransaction(id, request, faults, objectOf, patternOf);
      if done.Failure? {
        return Failure(done.error);
      }
      return Success(Refreshed(session.tables, id));
    }

    /** Lines 64-67: the update inside the open transaction. */
    method UpdateSteps(id: Option<Uuid>, request: Patch,
                       objectOf: (Option<Uuid>, Patch) -> Result<Patch, Error>)
      returns (r: Result<Stakeholder, Error>)
      requires repo.session == session
      modifies session`tables
      ensures r.Success? <==> UpdateWrites(old(session.tables), id, request, objectOf).Success?
      ensures r.Success? ==> UpdateWrites(old(session.tables), id, request, objectOf) == Success(M.Change(session.tables, r.value))
      ensures r.Failure? ==> r.error == UpdateWrites(old(session.tables), id, request, objectOf).error
    {
      var patch := objectOf(id, request);
      if patch.Failure? {
        return Failure(patch.error);
      }
      r := repo.UpdateStakeholder(patch.value);
    }

    /** Lines 60-77. The commit follows a successful update only, the edge
      table is never touched, and the result is the updated row. */
    method UpdateStakeholder(id: Option<Uuid>, request: Patch, faults: Faults,
                             objectOf: (Option<Uuid>, Patch) -> Result<Patch, Error>)
      returns (r: Result<Stakeholder, Error>)
      requires Valid()
      modifies session
      ensures Valid()
      ensures r.Success? <==> !faults.atBegin && UpdateWrites(old(session.tables), id, request, objectOf).Success? && !faults.atCommit
      ensures r.Success? ==> UpdateWrites(old(session.tables), id, request, objectOf) == Success(M.Change(session.tables, r.value))
      ensures r.Success? ==> session.events == old(session.events) + [S.Began] + [S.Commit]
      ensures r.Failure? ==> session.tables == old(session.tables)
      ensures r.Failure? ==> r.error == FirstError(faults, UpdateWrites(old(session.tables), id, request, objectOf))
      ensures r.Failure? && !faults.atBegin ==> session.events == old(session.events) + [S.Began] + [S.Rollback]
      ensures faults.atBegin ==> session.events == old(session.events)
    {
      UpdateWritesKeepKey(session.tables, id, request, objectOf);
      var begun := session.BeginTransaction(faults.atBegin);
      if begun.Failure? {
        r := Abort(begun.error);
        return;
      }
      var updated := UpdateSteps(id, request, objectOf);
      if updated.Failure? {
        r := Abort(updated.error);
        return;
      }
      var committed := Close(faults.atCommit);
      if committed.Failure? {
        return Failure(committed.error);
      }
      r := Success(updated.value);
    }
  }
}
