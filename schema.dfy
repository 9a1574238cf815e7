/** The two tables the repository works on: `stakeholder` and
    `stakeholder_relation`, and the errors its operations raise. */
module Schema {
  import opened Wrappers

  /** Stakeholder identifiers (UUID strings in the database). */
  type Uuid = string

  /** The columns of the `stakeholder` table. */
  datatype Column = Id | OrgName | FirstName | LastName | Email | Phone | Website | Map | OwnerId

  /** A row of `stakeholder`. The `map` column is `mapName` here (`map` is a
      keyword). */
  datatype Stakeholder = Stakeholder(
    id: Uuid,
    orgName: string,
    firstName: string,
    lastName: string,
    email: string,
    phone: string,
    website: string,
    mapName: string,
    ownerId: string)

  function Get(s: Stakeholder, c: Column): string {
    match c
    case Id => s.id
    case OrgName => s.orgName
    case FirstName => s.firstName
    case LastName => s.lastName
    case Email => s.email
    case Phone => s.phone
    case Website => s.website
    case Map => s.mapName
    case OwnerId => s.ownerId
  }

  /** `s` with column `c` set to `v`. */
  function With(s: Stakeholder, c: Column, v: string): (r: Stakeholder)
    ensures Get(r, c) == v
    ensures forall d :: d != c ==> Get(r, d) == Get(s, d)
  {
    match c
    case Id => s.(id := v)
    case OrgName => s.(orgName := v)
    case FirstName => s.(firstName := v)
    case LastName => s.(lastName := v)
    case Email => s.(email := v)
    case Phone => s.(phone := v)
    case Website => s.(website := v)
    case Map => s.(mapName := v)
    case OwnerId => s.(ownerId := v)
  }

  /** A plain object whose keys are stakeholder columns, as passed to an
      update or a delete. */
  type Patch = map<Column, string>

  /** A row of `stakeholder_relation`. The `type` column is `kind` here. */
  datatype Edge = Edge(parentId: Uuid, childId: Uuid, role: string, kind: string)

  /** A `.where(object)` over `stakeholder_relation`: every present key must
      equal the edge's column. */
  datatype EdgePattern = EdgePattern(
    parentId: Option<Uuid>,
    childId: Option<Uuid>,
    role: Option<string>,
    kind: Option<string>)

  predicate MatchesPattern(e: Edge, p: EdgePattern) {
    && (p.parentId.Some? ==> e.parentId == p.parentId.value)
    && (p.childId.Some? ==> e.childId == p.childId.value)
    && (p.role.Some? ==> e.role == p.role.value)
    && (p.kind.Some? ==> e.kind == p.kind.value)
  }

  /** Both tables, each in the order the database returns its rows. */
  datatype Tables = Tables(stakeholders: seq<Stakeholder>, relations: seq<Edge>)

  /** `id` is the primary key of `stakeholder`. */
  predicate UniqueIds(ss: seq<Stakeholder>) {
    forall i, j :: 0 <= i < j < |ss| ==> ss[i].id != ss[j].id
  }

  /** `select * from stakeholder where id = ? limit 1` (knex's `.first()`). */
  function Find(ss: seq<Stakeholder>, id: Uuid): (r: Option<Stakeholder>)
    ensures r.Some? ==> r.value in ss && r.value.id == id
    ensures r.None? <==> forall s :: s in ss ==> s.id != id
  {
    if ss == [] then None
    else if ss[0].id == id then Some(ss[0])
    else Find(ss[1..], id)
  }

  /** Under the primary key a stored row is the one found by its id. */
  lemma {:induction false} FindStored(ss: seq<Stakeholder>, s: Stakeholder)
    requires UniqueIds(ss) && s in ss
    ensures Find(ss, s.id) == Some(s)
  {
    if ss[0] != s {
      assert ss[0].id != s.id by {
        var k :| 0 <= k < |ss| && ss[k] == s;
      }
      FindStored(ss[1..], s);
    }
  }

  /** Under the primary key the first row's id occurs nowhere after it. */
  lemma UniqueIdsTail(ss: seq<Stakeholder>)
    requires UniqueIds(ss) && ss != []
    ensures UniqueIds(ss[1..])
    ensures forall s :: s in ss[1..] ==> s.id != ss[0].id
  {
    var tail := ss[1..];
    forall i, j | 0 <= i < j < |tail| ensures tail[i].id != tail[j].id {
      assert tail[i] == ss[i + 1] && tail[j] == ss[j + 1];
    }
    forall s | s in tail ensures s.id != ss[0].id {
      var k :| 0 <= k < |tail| && tail[k] == s;
      assert tail[k] == ss[k + 1];
    }
  }

  /** Under the primary key a stored row occurs exactly once. */
  lemma {:induction false} UniqueIdsMultiplicity(ss: seq<Stakeholder>)
    requires UniqueIds(ss)
    ensures forall x :: multiset(ss)[x] == if x in ss then 1 else 0
  {
    if ss != [] {
      UniqueIdsMultiplicity(ss[1..]);
      assert ss == [ss[0]] + ss[1..];
      assert forall k :: 0 <= k < |ss[1..]| ==> ss[1..][k].id != ss[0].id;
    }
  }

  /** The errors the modelled operations raise. */
  datatype Error =
    | CreateFailed          // the insert returned no row with an id
    | DeleteFailed          // the delete returned no row
    | UpdateFailed          // the update returned no row
    | RelationCreateFailed  // the relation insert returned no row
    | RelationDeleteFailed  // the relation delete returned no row
    | MissingId             // `object.id` is undefined: knex refuses the binding
    | NoSuchStakeholder     // `.first()` found nothing and the code reads a field of undefined
    | MissingLimitOptions   // `limitOptions.limit` read on undefined
    | UnknownColumn         // a filter key that is not a column of `stakeholder`
    | BeginFailed           // the session could not open a transaction
    | CommitFailed          // the session could not commit
}
