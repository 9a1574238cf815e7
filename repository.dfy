/** The stakeholder repository: the statements it runs against the session's
    tables. The read queries are the functions of StakeholderQueries; this
    class holds the imperative parts. */
module Repository {
  import opened Wrappers
  import opened Schema
  import Seqs
  import Q = StakeholderQueries
  import M = StakeholderMutations
  import S = Session

  /** The repository reports a statement's result as `r`, and the tables
      `after` are `before` with the statement applied when it succeeded and
      untouched when it failed. */
  predicate Applied<T(==)>(c: Result<M.Change<T>, Error>, before: Tables, after: Tables, r: Result<T, Error>) {
    match c
    case Success(ch) => r == Success(ch.row) && after == ch.after
    case Failure(e) => r == Failure(e) && after == before
  }

  class StakeholderRepository {
    const session: S.Session

    constructor(session: S.Session)
      ensures this.session == session
    {
      this.session := session;
    }

    /** Lines 295-315: the ids of both ends of every joined edge, added one
      by one to a set that keeps them in first-insertion order. */
    method GetRelatedIds(id: Uuid) returns (ids: seq<Uuid>)
      ensures ids == Q.RelatedIds(session.tables, id)
    {
      var rows := Q.RelatedRows(session.tables, id);
      ids := [];
      var i := 0;
      while i < |rows|
        invariant 0 <= i <= |rows|
        invariant ids == Seqs.Distinct(Q.Endpoints(rows[..i]))
      {
        var e := rows[i];
        var seen := Q.Endpoints(rows[..i]);
        assert rows[..i + 1][..i] == rows[..i];
        assert Q.Endpoints(rows[..i + 1]) == (seen + [e.parentId]) + [e.childId];
        Seqs.DistinctSnoc(seen, e.parentId);
        if e.parentId !in ids {
          ids := ids + [e.parentId];
        }
        Seqs.DistinctSnoc(seen + [e.parentId], e.childId);
        if e.childId !in ids {
          ids := ids + [e.childId];
        }
        i := i + 1;
      }
      assert rows[..|rows|] == rows;
    }

    /** Lines 249-262. */
    method CreateStakeholder(row: Stakeholder) returns (r: Result<Stakeholder, Error>)
      modifies session`tables
      ensures Applied(M.InsertRow(old(session.tables), row), old(session.tables), session.tables, r)
    {
      var c := M.InsertRow(session.tables, row);
      if c.Success? {
        session.tables := c.value.after;
        r := Success(c.value.row);
      } else {
        r := Failure(c.error);
      }
    }

    /** Lines 264-278. */
    method DeleteStakeholder(patch: Patch) returns (r: Result<Stakeholder, Error>)
      modifies session`tables
      ensures Applied(M.DeleteRow(old(session.tables), patch), old(session.tables), session.tables, r)
    {
      var c := M.DeleteRow(session.tables, patch);
      if c.Success? {
        session.tables := c.value.after;
        r := Success(c.value.row);
      } else {
        r := Failure(c.error);
      }
    }

    /** Lines 280-293. */
    method UpdateStakeholder(patch: Patch) returns (r: Result<Stakeholder, Error>)
      modifies session`tables
      ensures Applied(M.UpdateRow(old(session.tables), patch), old(session.tables), session.tables, r)
    {
      var c := M.UpdateRow(session.tables, patch);
      if c.Success? {
        session.tables := c.value.after;
        r := Success(c.value.row);
      } else {
        r := Failure(c.error);
      }
    }

    /** Lines 357-366. */
    method CreateRelation(e: Edge) returns (r: Result<Edge, Error>)
      modifies session`tables
      ensures Applied(M.InsertEdge(old(session.tables), e), old(session.tables), session.tables, r)
    {
      var c := M.InsertEdge(session.tables, e);
      if c.Success? {
        session.tables := c.value.after;
        r := Success(c.value.row);
      } else {
        r := Failure(c.error);
      }
    }

    /** Lines 368-382. */
    method DeleteRelation(p: EdgePattern) returns (r: Result<Edge, Error>)
      modifies session`tables
      ensures Applied(M.DeleteEdges(old(session.tables), p), old(session.tables), session.tables, r)
    {
      var c := M.DeleteEdges(session.tables, p);
      if c.Success? {
        session.tables := c.value.after;
        r := Success(c.value.row);
      } else {
        r := Failure(c.error);
      }
    }
  }
}
